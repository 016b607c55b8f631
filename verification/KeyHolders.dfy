/**
 The list of 802.11r key holders the controller keeps in package/roamd/src/mesh_poll.c: rebuilt
 after every poll from the reports of the nodes that are online and from the list of before. A
 change of the text restarts the radios, so what matters is when the text stays the same.
 */
module KeyHolders {
  import MeshChain
  import MeshNode
  import opened MeshProfile
  import opened StringOrder

  const MAX: nat := 16
  const TEXT_MAX: nat := 1536
  const ID_MAX: nat := 33
  const MAC_MAX: nat := 18
  /** The longest entry the array of entries holds, without its end mark. */
  const ENTRY_MAX: nat := MAC_MAX + (ID_MAX + 4) + 2 - 1

  const BAR: char := '|'
  const SPACE: char := ' '
  const SELF_ID := "controller"
  const NO_BSSID := "00:00:00:00:00:00|"

  datatype Ap = Ap(ssid: string, bssid: string, band: string)

  datatype Node = Node(id: string, online: bool, aps: seq<Ap>)

  // ---------------------------------------------------------------- entries

  /** The name of a key holder: the node and the band. */
  function Nasid(id: string, band: string): string
    requires band != ""
  {
    id + (if band[0] == '2' then "-2" else "-5")
  }

  /** An access point for clients, with an address and a band. */
  predicate Holds(a: Ap, backhaul: string) {
    a.bssid != "" && a.band != "" && !(backhaul != "" && a.ssid == backhaul)
  }

  function Entry(id: string, a: Ap): string
    requires a.band != ""
  {
    a.bssid + [BAR] + Nasid(id, a.band)
  }

  function ApEntries(id: string, aps: seq<Ap>, backhaul: string): seq<string> {
    if aps == [] then []
    else
      var n := |aps| - 1;
      ApEntries(id, aps[..n], backhaul) + (if Holds(aps[n], backhaul) then [Entry(id, aps[n])] else [])
  }

  /** The entries of every access point an online node reports. */
  function Reports(nodes: seq<Node>, backhaul: string): seq<string> {
    if nodes == [] then []
    else
      var n := |nodes| - 1;
      Reports(nodes[..n], backhaul)
      + (if nodes[n].online then ApEntries(nodes[n].id, nodes[n].aps, backhaul) else [])
  }

  /** The entry of access point a of node n, for clients: its address, and the node's id with the band. */
  predicate Announces(n: Node, a: Ap, backhaul: string, e: string) {
    && n.online && a in n.aps && a.bssid != "" && a.band != "" && (backhaul == "" || a.ssid != backhaul)
    && e == a.bssid + "|" + (n.id + (if a.band[0] == '2' then "-2" else "-5"))
  }

  lemma {:induction false} ApEntriesIff(n: Node, aps: seq<Ap>, backhaul: string, e: string)
    requires n.online && forall a :: a in aps ==> a in n.aps
    ensures e in ApEntries(n.id, aps, backhaul) <==> exists a :: a in aps && Announces(n, a, backhaul, e)
  {
    if aps != [] {
      var k := |aps| - 1;
      ApEntriesIff(n, aps[..k], backhaul, e);
      assert aps == aps[..k] + [aps[k]];
      assert Announces(n, aps[k], backhaul, e) <==> Holds(aps[k], backhaul) && e == Entry(n.id, aps[k]);
    }
  }

  /** Exactly the entries of the access points for clients of nodes that are online. */
  lemma {:induction false} ReportsIff(nodes: seq<Node>, backhaul: string, e: string)
    ensures e in Reports(nodes, backhaul) <==> exists n, a :: n in nodes && Announces(n, a, backhaul, e)
  {
    hide Announces, ApEntries;
    if nodes != [] {
      var k := |nodes| - 1;
      var n := nodes[k];
      ReportsIff(nodes[..k], backhaul, e);
      assert nodes == nodes[..k] + [n];
      AnnouncesOnline(n, backhaul, e);
      if n.online {
        ApEntriesIff(n, n.aps, backhaul, e);
      }
    }
  }

  lemma AnnouncesOnline(n: Node, backhaul: string, e: string)
    ensures forall a :: Announces(n, a, backhaul, e) ==> n.online && a in n.aps
  {
  }

  function First(s: seq<string>): (t: seq<string>)
    ensures |t| <= MAX
  {
    if |s| <= MAX then s else s[..MAX]
  }

  /** The first bar, or the end. */
  function Bar(s: string): (n: nat)
    ensures n <= |s| && (n < |s| ==> s[n] == BAR) && forall i :: 0 <= i < n ==> s[i] != BAR
  {
    if s == "" || s[0] == BAR then 0 else 1 + Bar(s[1..])
  }

  /** The entry e is of the address of tok, in any case of letters. */
  predicate SameBssid(e: string, tok: string) {
    var n := Bar(tok);
    n < |e| && e[n] == BAR && SameMac(e[..n], tok[..n])
  }

  predicate Listed(entries: seq<string>, tok: string) {
    exists i :: 0 <= i < |entries| && SameBssid(entries[i], tok)
  }

  /** The node part of a name: what stands before the last dash. */
  function OwnerOf(nasid: string): string {
    if MeshChain.DASH in nasid then nasid[..MeshNode.LastDash(nasid)] else nasid
  }

  predicate Owned(tok: string, members: seq<string>) {
    Bar(tok) < |tok|
    && var owner := OwnerOf(tok[Bar(tok) + 1..]);
       owner == SELF_ID || owner in members
  }

  predicate Keepable(tok: string, members: seq<string>) {
    Owned(tok, members) && !(NO_BSSID <= tok)
  }

  /** An entry may stay exactly when its name is that of the controller or a member, with any band, and its
      address is not the empty one. */
  lemma KeepableEntry(bssid: string, id: string, band: string, members: seq<string>)
    requires BAR !in bssid && MeshChain.DASH !in band
    ensures Keepable(bssid + "|" + (id + "-" + band), members) <==>
      (id == "controller" || id in members) && bssid != "00:00:00:00:00:00"
  {
    var name := id + "-" + band;
    var tok := bssid + "|" + name;
    var n := |bssid|;
    assert tok[n] == BAR && tok[..n] == bssid && tok[n + 1..] == name;
    assert Bar(tok) == n by {
      assert forall i :: 0 <= i < n ==> tok[i] == bssid[i];
    }
    assert name[|id|] == MeshChain.DASH && name[..|id|] == id;
    assert forall i :: |id| < i < |name| ==> name[i] == band[i - |id| - 1];
    assert MeshNode.LastDash(name) == |id|;
    EmptyAddress(bssid, tok);
  }

  lemma EmptyAddress(bssid: string, tok: string)
    requires BAR !in bssid && |bssid| < |tok| && tok[..|bssid|] == bssid && tok[|bssid|] == BAR
    ensures NO_BSSID <= tok <==> bssid == "00:00:00:00:00:00"
  {
    if NO_BSSID <= tok {
      assert forall i :: 0 <= i < 17 ==> tok[i] == NO_BSSID[i] != BAR;
      assert tok[17] == BAR;
      assert |bssid| == 17;
      assert bssid == NO_BSSID[..17];
    }
  }

  function Cut(tok: string): string {
    if |tok| <= ENTRY_MAX then tok else tok[..ENTRY_MAX]
  }

  /** The entries after the tokens of the old list have been added to base. */
  function Kept(members: seq<string>, base: seq<string>, toks: seq<string>): (e: seq<string>)
    requires |base| <= MAX
    ensures |e| <= MAX && base <= e
  {
    if toks == [] then base
    else
      var e := Kept(members, base, toks[..|toks| - 1]);
      var t := toks[|toks| - 1];
      if |e| < MAX && Keepable(t, members) && !Listed(e, t) then e + [Cut(t)] else e
  }

  function Rebuilt(nodes: seq<Node>, backhaul: string, members: seq<string>, list: seq<string>): seq<string> {
    Sort(Kept(members, First(Reports(nodes, backhaul)), list))
  }

  // ---------------------------------------------------------------- addresses

  ghost predicate Barred(s: seq<string>) {
    forall t :: t in s ==> Bar(t) < |t|
  }

  ghost predicate Short(s: seq<string>) {
    forall t :: t in s ==> |t| <= ENTRY_MAX
  }

  ghost predicate AllKeepable(s: seq<string>, members: seq<string>) {
    forall t :: t in s ==> Keepable(t, members)
  }

  /** No two places are of one address. */
  ghost predicate OnePerBssid(s: seq<string>) {
    forall i, j :: 0 <= i < |s| && 0 <= j < |s| && i != j ==> !SameBssid(s[i], s[j])
  }

  lemma BarUnique(s: string, n: nat)
    requires n < |s| && s[n] == BAR && forall i :: 0 <= i < n ==> s[i] != BAR
    ensures Bar(s) == n
  {
  }

  lemma LowerBar(s: string, t: string)
    requires SameMac(s, t)
    ensures |s| == |t| && forall i :: 0 <= i < |s| ==> (s[i] == BAR <==> t[i] == BAR)
  {
    assert |Lower(s)| == |Lower(t)|;
    forall i | 0 <= i < |s|
      ensures s[i] == BAR <==> t[i] == BAR
    {
      assert Lower(s)[i] == LowerChar(s[i]) && Lower(t)[i] == LowerChar(t[i]);
    }
  }

  /** Being of one address goes both ways, although one side's bar decides what is compared. */
  lemma SameBssidSym(e: string, tok: string)
    requires SameBssid(e, tok) && Bar(tok) < |tok|
    ensures SameBssid(tok, e)
  {
    var n := Bar(tok);
    LowerBar(e[..n], tok[..n]);
    forall i | 0 <= i < n
      ensures e[i] != BAR
    {
      assert e[..n][i] == e[i] && tok[..n][i] == tok[i];
    }
    BarUnique(e, n);
  }

  lemma SameAsItself(t: string)
    requires Bar(t) < |t|
    ensures SameBssid(t, t)
  {
  }

  lemma EntryBarred(id: string, a: Ap)
    requires a.band != ""
    ensures Bar(Entry(id, a)) < |Entry(id, a)|
  {
    assert Entry(id, a)[|a.bssid|] == BAR;
  }

  lemma {:induction false} ApEntriesBarred(id: string, aps: seq<Ap>, backhaul: string)
    ensures Barred(ApEntries(id, aps, backhaul))
  {
    hide Entry, Bar;
    if aps != [] {
      var n := |aps| - 1;
      ApEntriesBarred(id, aps[..n], backhaul);
      if Holds(aps[n], backhaul) {
        EntryBarred(id, aps[n]);
      }
    }
  }

  lemma {:induction false} ReportsBarred(nodes: seq<Node>, backhaul: string)
    ensures Barred(Reports(nodes, backhaul))
  {
    hide Bar;
    if nodes != [] {
      var n := |nodes| - 1;
      ReportsBarred(nodes[..n], backhaul);
      ApEntriesBarred(nodes[n].id, nodes[n].aps, backhaul);
    }
  }

  // ---------------------------------------------------------------- what is kept

  /** The tokens no entry of base is of the address of. */
  function Unlisted(base: seq<string>, toks: seq<string>): seq<string> {
    if toks == [] then []
    else
      var n := |toks| - 1;
      Unlisted(base, toks[..n]) + (if Listed(base, toks[n]) then [] else [toks[n]])
  }

  lemma {:induction false} UnlistedCount(base: seq<string>, toks: seq<string>, x: string)
    ensures multiset(Unlisted(base, toks))[x] == if Listed(base, x) then 0 else multiset(toks)[x]
  {
    hide Listed;
    if toks != [] {
      var n := |toks| - 1;
      UnlistedCount(base, toks[..n], x);
      assert toks == toks[..n] + [toks[n]];
    }
  }

  predicate Added(e: seq<string>, t: string, members: seq<string>) {
    |e| < MAX && Keepable(t, members) && !Listed(e, t)
  }

  lemma KeptNone(members: seq<string>, base: seq<string>)
    requires |base| <= MAX
    ensures Kept(members, base, []) == base
  {
  }

  lemma KeptStep(members: seq<string>, base: seq<string>, toks: seq<string>)
    requires |base| <= MAX && toks != []
    ensures var e, t := Kept(members, base, toks[..|toks| - 1]), toks[|toks| - 1];
            Kept(members, base, toks) == if Added(e, t, members) then e + [Cut(t)] else e
  {
  }

  /** Where every unlisted token may stay and there is room, all of them are kept, in order. */
  lemma {:induction false} KeptAll(members: seq<string>, base: seq<string>, toks: seq<string>)
    requires |base| + |Unlisted(base, toks)| <= MAX
    requires AllKeepable(Unlisted(base, toks), members) && Short(Unlisted(base, toks))
    requires OnePerBssid(Unlisted(base, toks))
    ensures Kept(members, base, toks) == base + Unlisted(base, toks)
  {
    hide Kept, Keepable, SameBssid, Listed;
    if toks == [] {
      KeptNone(members, base);
    } else {
      var n := |toks| - 1;
      var u, v, t := Unlisted(base, toks), Unlisted(base, toks[..n]), toks[n];
      assert forall i :: 0 <= i < |v| ==> v[i] == u[i] && v[i] in u;
      KeptAll(members, base, toks[..n]);
      KeptStep(members, base, toks);
      ListedConcat(base, v, t);
      if !Listed(base, t) {
        assert u[|v|] == t && t in u && Cut(t) == t;
        NotListed(v, t);
      }
    }
  }

  lemma NotListed(v: seq<string>, t: string)
    requires OnePerBssid(v + [t])
    ensures !Listed(v, t)
  {
    hide SameBssid;
    assert forall i :: 0 <= i < |v| ==> (v + [t])[i] == v[i] && (v + [t])[|v|] == t;
  }

  lemma ListedConcat(s: seq<string>, t: seq<string>, tok: string)
    ensures Listed(s + t, tok) <==> Listed(s, tok) || Listed(t, tok)
  {
    hide SameBssid;
    if Listed(s, tok) {
      var i :| 0 <= i < |s| && SameBssid(s[i], tok);
      assert (s + t)[i] == s[i];
    } else if Listed(t, tok) {
      var i :| 0 <= i < |t| && SameBssid(t[i], tok);
      assert (s + t)[|s| + i] == t[i];
    }
  }

  /** What is kept is base and then tokens of their own addresses. */
  lemma {:induction false} KeptShape(members: seq<string>, base: seq<string>, toks: seq<string>)
    requires |base| <= MAX && Short(toks)
    ensures Shape(members, base, toks, Kept(members, base, toks)[|base|..])
  {
    hide Kept, Shape;
    if toks == [] {
      ShapeNone(members, base);
    } else {
      var n := |toks| - 1;
      var e, t := Kept(members, base, toks[..n]), toks[n];
      KeptShape(members, base, toks[..n]);
      KeptStep(members, base, toks);
      var k := e[|base|..];
      assert e == base + k;
      ShapeMore(members, base, toks, k);
      if Added(e, t, members) {
        assert t in toks && Cut(t) == t;
        ListedConcat(base, k, t);
        assert (e + [t])[|base|..] == k + [t];
        ShapePush(members, base, toks, k, t);
      }
    }
  }

  ghost predicate Shape(members: seq<string>, base: seq<string>, toks: seq<string>, k: seq<string>) {
    AllKeepable(k, members) && OnePerBssid(k) && forall t :: t in k ==> t in toks && !Listed(base, t)
  }

  lemma ShapeNone(members: seq<string>, base: seq<string>)
    requires |base| <= MAX
    ensures Shape(members, base, [], Kept(members, base, [])[|base|..])
  {
  }

  lemma ShapeMore(members: seq<string>, base: seq<string>, toks: seq<string>, k: seq<string>)
    requires toks != [] && Shape(members, base, toks[..|toks| - 1], k)
    ensures Shape(members, base, toks, k)
  {
    hide Listed, AllKeepable, OnePerBssid;
    assert forall t :: t in toks[..|toks| - 1] ==> t in toks;
  }

  lemma ShapePush(members: seq<string>, base: seq<string>, toks: seq<string>, k: seq<string>, t: string)
    requires Shape(members, base, toks, k) && t in toks && Keepable(t, members)
    requires !Listed(base, t) && !Listed(k, t)
    ensures Shape(members, base, toks, k + [t])
  {
    hide Listed, Keepable, OnePerBssid;
    OnePerBssidPush(k, t, members);
  }

  lemma OnePerBssidPush(k: seq<string>, t: string, members: seq<string>)
    requires OnePerBssid(k) && AllKeepable(k, members) && Keepable(t, members) && !Listed(k, t)
    ensures OnePerBssid(k + [t])
  {
    hide SameBssid, Bar, OwnerOf;
    forall i | 0 <= i < |k|
      ensures !SameBssid(k[i], t) && !SameBssid(t, k[i])
    {
      assert k[i] in k;
      if SameBssid(t, k[i]) {
        SameBssidSym(t, k[i]);
      }
    }
  }

  // ---------------------------------------------------------------- rebuilding again

  lemma {:induction false} DistinctCount(s: seq<string>, x: string)
    requires forall i, j :: 0 <= i < j < |s| ==> s[i] != s[j]
    ensures multiset(s)[x] == if x in s then 1 else 0
    decreases |s|
  {
    if s != [] {
      var n := |s| - 1;
      DistinctCount(s[..n], x);
      assert s == s[..n] + [s[n]];
    }
  }

  lemma CountOfTwo(s: seq<string>, i: nat, j: nat)
    requires i < j < |s| && s[i] == s[j]
    ensures multiset(s)[s[i]] >= 2
  {
    var a, b, c := s[..i], s[i + 1..j], s[j + 1..];
    assert s == a + [s[i]] + b + [s[j]] + c;
  }

  lemma OneMeansDistinct(s: seq<string>)
    requires OnePerBssid(s) && Barred(s)
    ensures forall i, j :: 0 <= i < j < |s| ==> s[i] != s[j]
  {
    hide SameBssid, Bar;
    forall i, j | 0 <= i < j < |s|
      ensures s[i] != s[j]
    {
      if s[i] == s[j] {
        assert s[i] in s;
        SameAsItself(s[i]);
      }
    }
  }

  /** One place for each address is a property of the entries, not of their order. */
  lemma OnePerBssidAnyOrder(k: seq<string>, u: seq<string>)
    requires OnePerBssid(k) && Barred(k) && multiset(k) == multiset(u)
    ensures OnePerBssid(u)
  {
    hide SameBssid, Bar;
    OneMeansDistinct(k);
    forall i, j | 0 <= i < |u| && 0 <= j < |u| && i != j
      ensures !SameBssid(u[i], u[j])
    {
      assert u[i] in multiset(k) && u[j] in multiset(k);
      DistinctCount(k, u[i]);
      if u[i] == u[j] {
        CountOfTwo(u, if i < j then i else j, if i < j then j else i);
      } else {
        var a :| 0 <= a < |k| && k[a] == u[i];
        var b :| 0 <= b < |k| && k[b] == u[j];
        assert !SameBssid(k[a], k[b]);
      }
    }
  }

  lemma KeepableBarred(s: seq<string>, members: seq<string>)
    requires AllKeepable(s, members)
    ensures Barred(s)
  {
  }

  lemma SameMembers(u: seq<string>, k: seq<string>)
    requires multiset(u) == multiset(k)
    ensures |u| == |k| && forall t :: t in u <==> t in k
  {
    assert |u| == |multiset(u)| == |multiset(k)| == |k|;
    assert forall t :: t in u <==> t in multiset(u);
    assert forall t :: t in k <==> t in multiset(k);
  }

  lemma BaseListed(base: seq<string>, x: string)
    requires x in base && Barred(base)
    ensures Listed(base, x)
  {
    hide SameBssid;
    var i :| 0 <= i < |base| && base[i] == x;
    SameAsItself(x);
  }

  /** Sorting what was kept and keeping again leaves the unlisted tokens the same. */
  lemma UnlistedOfSorted(base: seq<string>, k: seq<string>)
    requires Barred(base) && forall t :: t in k ==> !Listed(base, t)
    ensures multiset(Unlisted(base, Sort(base + k))) == multiset(k)
  {
    hide Sort, Unlisted, Listed, Barred;
    var r := Sort(base + k);
    SortKeeps(base + k);
    forall x: string
      ensures multiset(Unlisted(base, r))[x] == multiset(k)[x]
    {
      UnlistedCount(base, r, x);
      if x in base {
        BaseListed(base, x);
      }
      assert x in multiset(k) <==> x in k;
      assert x in multiset(base) <==> x in base;
      assert multiset(r)[x] == multiset(base)[x] + multiset(k)[x];
    }
  }

  /** An entry that was cut and may still stay is of the address it was of before. */
  lemma CutSame(e: string, t: string, members: seq<string>)
    requires Keepable(Cut(t), members)
    ensures SameBssid(e, Cut(t)) <==> SameBssid(e, t)
  {
    var x, n := Cut(t), Bar(Cut(t));
    assert forall i :: 0 <= i < |x| ==> x[i] == t[i];
    BarUnique(t, n);
    assert x[..n] == t[..n];
  }

  lemma CutListed(e: seq<string>, t: string, members: seq<string>)
    requires Keepable(Cut(t), members) && !Listed(e, t)
    ensures !Listed(e, Cut(t))
  {
    hide SameBssid, Keepable, Cut;
    forall i | 0 <= i < |e|
      ensures !SameBssid(e[i], Cut(t))
    {
      CutSame(e[i], t, members);
    }
  }

  /** x is a token that may stay, of an address base does not list, as it was cut. */
  ghost predicate CutFrom(members: seq<string>, base: seq<string>, toks: seq<string>, x: string) {
    exists t :: t in toks && Keepable(t, members) && !Listed(base, t) && x == Cut(t)
  }

  /** What is kept comes from the tokens; if all of it may still stay once cut, each entry is of its own address. */
  ghost predicate LooseShape(members: seq<string>, base: seq<string>, toks: seq<string>, k: seq<string>) {
    && (forall x :: x in k ==> CutFrom(members, base, toks, x))
    && (AllKeepable(k, members) ==> OnePerBssid(k) && forall x :: x in k ==> !Listed(base, x))
  }

  lemma {:induction false} KeptLoosely(members: seq<string>, base: seq<string>, toks: seq<string>)
    requires |base| <= MAX
    ensures LooseShape(members, base, toks, Kept(members, base, toks)[|base|..])
  {
    hide Kept, LooseShape;
    if toks == [] {
      KeptNone(members, base);
      assert base[|base|..] == [];
      LooseNone(members, base);
    } else {
      var n := |toks| - 1;
      var e, t := Kept(members, base, toks[..n]), toks[n];
      KeptLoosely(members, base, toks[..n]);
      KeptStep(members, base, toks);
      var k := e[|base|..];
      assert e == base + k;
      LooseMore(members, base, toks, k);
      if Added(e, t, members) {
        ListedConcat(base, k, t);
        assert (e + [Cut(t)])[|base|..] == k + [Cut(t)];
        LoosePush(members, base, toks, k, t);
      }
    }
  }

  lemma LooseNone(members: seq<string>, base: seq<string>)
    ensures LooseShape(members, base, [], [])
  {
  }

  lemma LooseMore(members: seq<string>, base: seq<string>, toks: seq<string>, k: seq<string>)
    requires toks != [] && LooseShape(members, base, toks[..|toks| - 1], k)
    ensures LooseShape(members, base, toks, k)
  {
    hide Listed, Keepable, OnePerBssid, Cut;
    forall x | x in k
      ensures CutFrom(members, base, toks, x)
    {
      var t :| t in toks[..|toks| - 1] && Keepable(t, members) && !Listed(base, t) && x == Cut(t);
    }
  }

  lemma LoosePush(members: seq<string>, base: seq<string>, toks: seq<string>, k: seq<string>, t: string)
    requires LooseShape(members, base, toks, k) && t in toks && Keepable(t, members)
    requires !Listed(base, t) && !Listed(k, t)
    ensures LooseShape(members, base, toks, k + [Cut(t)])
  {
    hide Listed, Keepable, OnePerBssid, Cut, CutFrom;
    var x, l := Cut(t), k + [Cut(t)];
    assert CutFrom(members, base, toks, x) by {
      FromItself(members, base, toks, t);
    }
    if AllKeepable(l, members) {
      assert l[|k|] == x && x in l && forall y :: y in k ==> y in l;
      CutListed(base, t, members);
      CutListed(k, t, members);
      OnePerBssidPush(k, x, members);
    }
  }

  lemma FromItself(members: seq<string>, base: seq<string>, toks: seq<string>, t: string)
    requires t in toks && Keepable(t, members) && !Listed(base, t)
    ensures CutFrom(members, base, toks, Cut(t))
  {
  }

  lemma CutIsShort(members: seq<string>, base: seq<string>, toks: seq<string>, k: seq<string>)
    requires LooseShape(members, base, toks, k)
    ensures Short(k)
  {
  }

  /** Where all that was kept may still stay, keeping from the sorted list again keeps the same. */
  lemma RebuiltAgain(members: seq<string>, base: seq<string>, k: seq<string>)
    requires |base| + |k| <= MAX && Barred(base) && AllKeepable(k, members) && Short(k) && OnePerBssid(k)
    requires forall t :: t in k ==> !Listed(base, t)
    ensures Sort(Kept(members, base, Sort(base + k))) == Sort(base + k)
  {
    hide Sort, Unlisted, Kept, Keepable, Bar, SameBssid, Listed;
    var r := Sort(base + k);
    var u := Unlisted(base, r);
    KeepableBarred(k, members);
    UnlistedOfSorted(base, k);
    OnePerBssidAnyOrder(k, u);
    SameMembers(u, k);
    KeptAll(members, base, r);
    assert multiset(base + u) == multiset(base + k);
    SortKeeps(base + u);
    SortKeeps(base + k);
    SortedUnique(Sort(base + u), Sort(base + k));
  }

  /** What is kept from the list made of base and k and comes to the same as k may stay as it is. */
  lemma SameIsKeepable(members: seq<string>, base: seq<string>, k: seq<string>, l: seq<string>)
    requires Barred(base) && Short(k) && multiset(base + k) == multiset(base + l)
    requires forall x :: x in l ==> CutFrom(members, base, Sort(base + k), x)
    ensures AllKeepable(k, members)
  {
    hide Sort, Keepable, Listed, Bar;
    assert multiset(k) == multiset(base + k) - multiset(base) == multiset(base + l) - multiset(base) == multiset(l);
    SameMembers(k, l);
    SortKeeps(base + k);
    SameMembers(Sort(base + k), base + k);
    forall x | x in k
      ensures Keepable(x, members)
    {
      var t :| t in Sort(base + k) && Keepable(t, members) && !Listed(base, t) && x == Cut(t);
      assert t in base + k;
      if t in base {
        BaseListed(base, t);
      }
      assert t in k && Cut(t) == t;
    }
  }

  /**
   With the same reports and members, rebuilding the rebuilt list changes nothing exactly when no
   entry that was kept lost its right to stay by being cut to the room for one entry.
   */
  lemma IdempotentIff(nodes: seq<Node>, backhaul: string, members: seq<string>, list: seq<string>)
    ensures var base := First(Reports(nodes, backhaul));
            var r := Rebuilt(nodes, backhaul, members, list);
            Rebuilt(nodes, backhaul, members, r) == r
            <==> AllKeepable(Kept(members, base, list)[|base|..], members)
  {
    hide Sort, Kept, Keepable, Reports, Bar, SameBssid, Listed, OnePerBssid;
    var base := First(Reports(nodes, backhaul));
    ReportsBarred(nodes, backhaul);
    BarredFirst(Reports(nodes, backhaul));
    var e := Kept(members, base, list);
    var k := e[|base|..];
    assert e == base + k;
    KeptLoosely(members, base, list);
    CutIsShort(members, base, list, k);
    if AllKeepable(k, members) {
      RebuiltAgain(members, base, k);
    }
    var r := Sort(e);
    var f := Kept(members, base, r);
    var l := f[|base|..];
    assert f == base + l;
    KeptLoosely(members, base, r);
    if Sort(f) == r {
      SortKeeps(e);
      SortKeeps(f);
      SameIsKeepable(members, base, k, l);
    }
  }

  lemma BarredFirst(s: seq<string>)
    requires Barred(s)
    ensures Barred(First(s))
  {
    hide Bar;
  }

  /** A list without entries too long for their room is rebuilt to itself the second time. */
  lemma Idempotent(nodes: seq<Node>, backhaul: string, members: seq<string>, list: seq<string>)
    requires Short(list)
    ensures var r := Rebuilt(nodes, backhaul, members, list);
            Rebuilt(nodes, backhaul, members, r) == r
  {
    hide Kept, Reports, OnePerBssid, Keepable, Rebuilt;
    KeptShape(members, First(Reports(nodes, backhaul)), list);
    IdempotentIff(nodes, backhaul, members, list);
  }

  // ---------------------------------------------------------------- when the list stays

  ghost predicate Distinct(s: seq<string>) {
    forall i, j :: 0 <= i < j < |s| ==> s[i] != s[j]
  }

  /** Of a list with one place for each address, the tokens base does not list are the others. */
  lemma UnlistedIsRest(base: seq<string>, list: seq<string>)
    requires Barred(list) && OnePerBssid(list) && Distinct(base) && forall t :: t in base ==> t in list
    ensures multiset(base + Unlisted(base, list)) == multiset(list)
    ensures |base| + |Unlisted(base, list)| == |list|
  {
    hide Unlisted, Listed, Bar, SameBssid;
    OneMeansDistinct(list);
    var u := Unlisted(base, list);
    forall x: string
      ensures multiset(base)[x] + multiset(u)[x] == multiset(list)[x]
    {
      UnlistedCount(base, list, x);
      DistinctCount(base, x);
      DistinctCount(list, x);
      if x in base {
        BaseListed(base, x);
      } else if Listed(base, x) && x in list {
        ListedIsIn(base, list, x);
      }
    }
    assert multiset(base + u) == multiset(list);
    assert |base + u| == |multiset(base + u)| == |multiset(list)| == |list|;
  }

  lemma ListedIsIn(base: seq<string>, list: seq<string>, x: string)
    requires OnePerBssid(list) && (forall t :: t in base ==> t in list) && Listed(base, x) && x in list
    ensures x in base
  {
    hide SameBssid;
    var i :| 0 <= i < |base| && SameBssid(base[i], x);
    assert base[i] in list;
    var a :| 0 <= a < |list| && list[a] == base[i];
    var b :| 0 <= b < |list| && list[b] == x;
  }

  lemma {:induction false} UnlistedIn(base: seq<string>, toks: seq<string>)
    ensures forall t :: t in Unlisted(base, toks) ==> t in toks && !Listed(base, t)
  {
    hide Listed;
    if toks != [] {
      UnlistedIn(base, toks[..|toks| - 1]);
    }
  }

  lemma {:induction false} UnlistedOnePer(base: seq<string>, toks: seq<string>)
    requires OnePerBssid(toks)
    ensures OnePerBssid(Unlisted(base, toks))
  {
    hide Listed, SameBssid;
    if toks != [] {
      var n := |toks| - 1;
      var v := Unlisted(base, toks[..n]);
      UnlistedOnePer(base, toks[..n]);
      UnlistedIn(base, toks[..n]);
      forall i | 0 <= i < |v|
        ensures !SameBssid(v[i], toks[n]) && !SameBssid(toks[n], v[i])
      {
        assert v[i] in v && v[i] in toks[..n];
        var a :| 0 <= a < n && toks[a] == v[i];
      }
    }
  }

  /** The list is sorted, names every reported access point, and nothing else but what may stay. */
  ghost predicate Settled(base: seq<string>, members: seq<string>, list: seq<string>) {
    && Sorted(list)
    && (forall t :: t in base ==> t in list)
    && (forall t :: t in list ==> t in base || Keepable(t, members))
  }

  /**
   A list with one place for each address is rebuilt to itself, so that no radio is restarted,
   exactly when it is settled: nodes that are offline or have lost some access points are no reason.
   */
  lemma StaysIff(nodes: seq<Node>, backhaul: string, members: seq<string>, list: seq<string>)
    requires |list| <= MAX && Short(list) && OnePerBssid(list) && Barred(list)
    requires Distinct(First(Reports(nodes, backhaul)))
    ensures Rebuilt(nodes, backhaul, members, list) == list
       <==> Settled(First(Reports(nodes, backhaul)), members, list)
  {
    hide Kept, Sort, First, Reports, Bar, SameBssid, StrLe, Keepable, OnePerBssid;
    var base := First(Reports(nodes, backhaul));
    SortKeeps(Kept(members, base, list));
    if Settled(base, members, list) {
      SettledStays(members, base, list);
    }
    if Rebuilt(nodes, backhaul, members, list) == list {
      StaysSettled(members, base, list);
    }
  }

  lemma SettledStays(members: seq<string>, base: seq<string>, list: seq<string>)
    requires |list| <= MAX && Short(list) && OnePerBssid(list) && Barred(list)
    requires Distinct(base) && |base| <= MAX && Settled(base, members, list)
    ensures Sort(Kept(members, base, list)) == list
  {
    hide Kept, Sort, Bar, SameBssid, StrLe, Keepable, OnePerBssid, Listed, Unlisted, Distinct;
    var u := Unlisted(base, list);
    UnlistedIsRest(base, list);
    UnlistedIn(base, list);
    UnlistedOnePer(base, list);
    BaseBarred(base, list);
    forall t | t in u
      ensures Keepable(t, members)
    {
      if t in base {
        BaseListed(base, t);
      }
    }
    KeptAll(members, base, list);
    SortKeeps(base + u);
    SortedUnique(Sort(base + u), list);
  }

  lemma BaseBarred(base: seq<string>, list: seq<string>)
    requires Barred(list) && forall t :: t in base ==> t in list
    ensures Barred(base)
  {
    hide Bar;
  }

  lemma StaysSettled(members: seq<string>, base: seq<string>, list: seq<string>)
    requires |base| <= MAX && Short(list) && Sort(Kept(members, base, list)) == list
    ensures Settled(base, members, list)
  {
    hide Kept, Sort, Bar, SameBssid, StrLe, Keepable, OnePerBssid, Listed;
    var e := Kept(members, base, list);
    SortKeeps(e);
    SameMembers(Sort(e), e);
    KeptShape(members, base, list);
    var k := e[|base|..];
    assert e == base + k;
    assert forall t :: t in e <==> t in base || t in k;
  }

  /** The same nodes with some of them offline. */
  ghost predicate Fewer(down: seq<Node>, nodes: seq<Node>) {
    && |down| == |nodes|
    && forall i :: 0 <= i < |nodes| ==>
         down[i].id == nodes[i].id && down[i].aps == nodes[i].aps && (down[i].online ==> nodes[i].online)
  }

  lemma {:induction false} FewerReports(down: seq<Node>, nodes: seq<Node>, backhaul: string)
    requires Fewer(down, nodes) && Distinct(Reports(nodes, backhaul))
    ensures Distinct(Reports(down, backhaul))
    ensures forall t :: t in Reports(down, backhaul) ==> t in Reports(nodes, backhaul)
  {
    hide ApEntries;
    if nodes != [] {
      var n := |nodes| - 1;
      var a, b := Reports(nodes[..n], backhaul), ApEntries(nodes[n].id, nodes[n].aps, backhaul);
      var all := Reports(nodes, backhaul);
      assert all == a + (if nodes[n].online then b else []);
      assert forall i :: 0 <= i < |a| ==> a[i] == all[i];
      FewerReports(down[..n], nodes[..n], backhaul);
      if down[n].online {
        var c := Reports(down[..n], backhaul);
        assert Reports(down, backhaul) == c + b;
        assert forall j :: 0 <= j < |b| ==> b[j] == all[|a| + j];
        forall i, j | 0 <= i < |c| && 0 <= j < |b|
          ensures c[i] != b[j]
        {
          assert c[i] in c && c[i] in a;
          var k :| 0 <= k < |a| && a[k] == c[i];
          assert all[k] != all[|a| + j];
        }
      }
    }
  }

  lemma {:induction false} NoMore(s: seq<string>, list: seq<string>)
    requires Distinct(s) && forall x :: x in s ==> x in list
    ensures |s| <= |list|
    decreases |s|
  {
    if s != [] {
      var n := |s| - 1;
      assert s[n] in list;
      var k :| 0 <= k < |list| && list[k] == s[n];
      var rest := list[..k] + list[k + 1..];
      forall x | x in s[..n]
        ensures x in rest
      {
        var i :| 0 <= i < n && s[i] == x;
        assert x in list;
        var j :| 0 <= j < |list| && list[j] == x;
        assert rest[if j < k then j else j - 1] == x;
      }
      NoMore(s[..n], rest);
    }
  }

  /** A list that names all the access points of the system stays whichever nodes are offline. */
  lemma OfflineNodesStay(down: seq<Node>, nodes: seq<Node>, backhaul: string, members: seq<string>,
                         list: seq<string>)
    requires |list| <= MAX && Short(list) && OnePerBssid(list) && AllKeepable(list, members) && Sorted(list)
    requires Fewer(down, nodes) && Distinct(Reports(nodes, backhaul))
    requires forall t :: t in Reports(nodes, backhaul) ==> t in list
    ensures Rebuilt(down, backhaul, members, list) == list
  {
    hide Reports, Keepable, OnePerBssid, Sorted, StrLe, Rebuilt;
    FewerReports(down, nodes, backhaul);
    KeepableBarred(list, members);
    NoMore(Reports(down, backhaul), list);
    StaysIff(down, backhaul, members, list);
  }

  // ---------------------------------------------------------------- what leaves

  lemma {:induction false} KeptOrListed(members: seq<string>, base: seq<string>, toks: seq<string>, t: string)
    requires |base| <= MAX && Short(toks) && t in toks && Keepable(t, members)
    ensures var e := Kept(members, base, toks); |e| == MAX || Listed(e, t)
  {
    hide Keepable, SameBssid, Kept, Listed;
    var n := |toks| - 1;
    var e := Kept(members, base, toks[..n]);
    KeptStep(members, base, toks);
    ListedConcat(e, [Cut(toks[n])], t);
    if t in toks[..n] {
      KeptOrListed(members, base, toks[..n], t);
    } else if Added(e, toks[n], members) {
      ItselfListed(t, members);
    }
  }

  lemma ItselfListed(t: string, members: seq<string>)
    requires Keepable(t, members) && |t| <= ENTRY_MAX
    ensures Listed([Cut(t)], t)
  {
    SameAsItself(t);
    assert [Cut(t)][0] == t;
  }

  lemma ListedAnyOrder(s: seq<string>, r: seq<string>, t: string)
    requires multiset(s) == multiset(r) && Listed(s, t)
    ensures Listed(r, t)
  {
    hide SameBssid;
    var i :| 0 <= i < |s| && SameBssid(s[i], t);
    SameMembers(s, r);
    assert s[i] in r;
  }

  /**
   The list only grows: the address of an entry whose owner is a member stays in the list, under
   the entry or under a fresh one, unless sixteen others fill it.
   */
  lemma AddressStays(nodes: seq<Node>, backhaul: string, members: seq<string>, list: seq<string>, t: string)
    requires Short(list) && t in list && Keepable(t, members)
    ensures var r := Rebuilt(nodes, backhaul, members, list); |r| == MAX || Listed(r, t)
  {
    hide Kept, Sort, Reports, Keepable, Listed;
    var base := First(Reports(nodes, backhaul));
    var e := Kept(members, base, list);
    KeptOrListed(members, base, list, t);
    SortKeeps(e);
    SameMembers(e, Sort(e));
    if Listed(e, t) {
      ListedAnyOrder(e, Sort(e), t);
    }
  }

  lemma {:induction false} KeptGrows(members: seq<string>, base: seq<string>, toks: seq<string>, n: nat)
    requires |base| <= MAX && n <= |toks|
    ensures Kept(members, base, toks[..n]) <= Kept(members, base, toks)
  {
    hide Kept;
    if n < |toks| {
      var t := toks[..|toks| - 1];
      KeptGrows(members, base, t, n);
      assert t[..n] == toks[..n];
      KeptStep(members, base, toks);
    } else {
      assert toks[..n] == toks;
    }
  }

  lemma ListedPrefix(s: seq<string>, t: seq<string>, tok: string)
    requires s <= t && Listed(s, tok)
    ensures Listed(t, tok)
  {
    hide SameBssid;
    assert t == s + t[|s|..];
    ListedConcat(s, t[|s|..], tok);
  }

  /** The entry at place n, which may stay, loses its address exactly when what comes before it fills the list. */
  lemma LeavesIff(members: seq<string>, base: seq<string>, toks: seq<string>, n: nat)
    requires |base| <= MAX && Short(toks) && n < |toks| && Keepable(toks[n], members)
    ensures var before := Kept(members, base, toks[..n]);
            !Listed(Kept(members, base, toks), toks[n]) <==> |before| == MAX && !Listed(before, toks[n])
  {
    hide Kept, Listed, Keepable;
    var before, t := Kept(members, base, toks[..n]), toks[n];
    if |before| == MAX {
      KeptFull(members, base, toks, n);
    } else {
      KeptGrows(members, base, toks, n + 1);
      assert toks[..n + 1][..n] == toks[..n];
      KeptStep(members, base, toks[..n + 1]);
      if !Listed(before, t) {
        assert t in toks;
        ItselfListed(t, members);
        ListedConcat(before, [Cut(t)], t);
      }
      ListedPrefix(Kept(members, base, toks[..n + 1]), Kept(members, base, toks), t);
    }
  }

  /** The same of the new list: only the fresh entries and the old ones before it can crowd an address out. */
  lemma AddressLeavesIff(nodes: seq<Node>, backhaul: string, members: seq<string>, list: seq<string>, n: nat)
    requires Short(list) && n < |list| && Keepable(list[n], members)
    ensures var before := Kept(members, First(Reports(nodes, backhaul)), list[..n]);
            !Listed(Rebuilt(nodes, backhaul, members, list), list[n])
            <==> |before| == MAX && !Listed(before, list[n])
  {
    hide Kept, Sort, Reports, Keepable, Listed;
    var e := Kept(members, First(Reports(nodes, backhaul)), list);
    LeavesIff(members, First(Reports(nodes, backhaul)), list, n);
    SortKeeps(e);
    if Listed(e, list[n]) {
      ListedAnyOrder(e, Sort(e), list[n]);
    }
    if Listed(Sort(e), list[n]) {
      ListedAnyOrder(Sort(e), e, list[n]);
    }
  }

  /** Every access point the online nodes report, of the first sixteen, is in the new list. */
  lemma ReportedIsIn(nodes: seq<Node>, backhaul: string, members: seq<string>, list: seq<string>)
    ensures forall t :: t in First(Reports(nodes, backhaul)) ==> t in Rebuilt(nodes, backhaul, members, list)
  {
    hide Kept, Sort, Reports;
    var base := First(Reports(nodes, backhaul));
    var e := Kept(members, base, list);
    SortKeeps(e);
    SameMembers(e, Sort(e));
    assert forall i :: 0 <= i < |base| ==> e[i] == base[i];
  }

  lemma {:induction false} KeptFull(members: seq<string>, base: seq<string>, toks: seq<string>, n: nat)
    requires |base| <= MAX && n <= |toks|
    requires n == |toks| || |Kept(members, base, toks[..n])| == MAX
    ensures Kept(members, base, toks) == Kept(members, base, toks[..n])
  {
    hide Kept;
    if n < |toks| {
      assert toks[..|toks| - 1][..n] == toks[..n];
      KeptFull(members, base, toks[..|toks| - 1], n);
      KeptStep(members, base, toks);
    } else {
      assert toks[..n] == toks;
    }
  }
}
