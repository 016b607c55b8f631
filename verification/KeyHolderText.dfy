/**
 The text in which the list of key holders is kept (package/roamd/src/mesh_poll.c): read with strtok_r,
 written entry by entry, and compared with the text of before, as any change of it restarts the radios.
 */
module KeyHolderText {
  import opened StringOrder
  import opened KeyHolders

  // ---------------------------------------------------------------- the text

  function NextSpace(s: string): (n: nat)
    ensures n <= |s| && (n < |s| ==> s[n] == SPACE) && forall i :: 0 <= i < n ==> s[i] != SPACE
  {
    if s == "" || s[0] == SPACE then 0 else 1 + NextSpace(s[1..])
  }

  /** The tokens strtok_r finds between spaces. */
  function Words(s: string): seq<string>
    decreases |s|
  {
    if s == "" then []
    else if s[0] == SPACE then Words(s[1..])
    else [s[..NextSpace(s)]] + Words(s[NextSpace(s)..])
  }

  function Joined(list: seq<string>): string {
    if list == [] then ""
    else
      var p := Joined(list[..|list| - 1]);
      p + (if p == "" then "" else [SPACE]) + list[|list| - 1]
  }

  predicate IsWord(t: string) {
    t != "" && SPACE !in t
  }

  lemma NextSpaceUnique(s: string, n: nat)
    requires n <= |s| && (n < |s| ==> s[n] == SPACE) && forall i :: 0 <= i < n ==> s[i] != SPACE
    ensures NextSpace(s) == n
  {
  }

  lemma WordAlone(t: string)
    requires IsWord(t)
    ensures Words(t) == [t]
  {
    NextSpaceUnique(t, |t|);
    assert t[..|t|] == t && t[|t|..] == "";
  }

  lemma {:induction false} WordsPush(p: string, t: string)
    requires IsWord(t)
    ensures Words(p + [SPACE] + t) == Words(p) + [t]
    decreases |p|
  {
    var s := p + [SPACE] + t;
    if p == "" {
      assert s[1..] == t;
      WordAlone(t);
    } else if p[0] == SPACE {
      assert s[1..] == p[1..] + [SPACE] + t;
      WordsPush(p[1..], t);
    } else {
      var n := NextSpace(p);
      NextSpaceUnique(s, n);
      assert s[..n] == p[..n] && s[n..] == p[n..] + [SPACE] + t;
      WordsPush(p[n..], t);
    }
  }

  /** Reading the text back gives the entries. */
  lemma {:induction false} WordsOfJoined(list: seq<string>)
    requires forall t :: t in list ==> IsWord(t)
    ensures Words(Joined(list)) == list && (Joined(list) == "" <==> list == [])
  {
    hide Words;
    if list == [] {
      assert Words("") == [] by {
        WordsEmpty();
      }
    } else {
      var n := |list| - 1;
      WordsOfJoined(list[..n]);
      var p, t := Joined(list[..n]), list[n];
      assert list == list[..n] + [t];
      if n == 0 {
        assert p + "" + t == t;
        WordAlone(t);
      } else {
        WordsPush(p, t);
      }
    }
  }

  lemma WordsEmpty()
    ensures Words("") == []
  {
  }

  lemma {:induction false} WordsAreWords(s: string)
    ensures forall t :: t in Words(s) ==> IsWord(t)
    decreases |s|
  {
    if s != "" {
      if s[0] == SPACE {
        WordsAreWords(s[1..]);
      } else {
        WordsAreWords(s[NextSpace(s)..]);
      }
    }
  }

  /** No id or address holds a space. */
  ghost predicate Spaceless(nodes: seq<Node>) {
    forall i :: 0 <= i < |nodes| ==>
      SPACE !in nodes[i].id && forall j :: 0 <= j < |nodes[i].aps| ==> SPACE !in nodes[i].aps[j].bssid
  }

  ghost predicate AllWords(s: seq<string>) {
    forall t :: t in s ==> IsWord(t)
  }

  lemma {:induction false} ApEntriesWords(id: string, aps: seq<Ap>, backhaul: string)
    requires SPACE !in id && forall j :: 0 <= j < |aps| ==> SPACE !in aps[j].bssid
    ensures AllWords(ApEntries(id, aps, backhaul))
  {
    if aps != [] {
      ApEntriesWords(id, aps[..|aps| - 1], backhaul);
    }
  }

  lemma {:induction false} ReportsWords(nodes: seq<Node>, backhaul: string)
    requires Spaceless(nodes)
    ensures AllWords(Reports(nodes, backhaul))
  {
    hide ApEntries, IsWord;
    if nodes != [] {
      var n := |nodes| - 1;
      ReportsWords(nodes[..n], backhaul);
      ApEntriesWords(nodes[n].id, nodes[n].aps, backhaul);
    }
  }

  lemma {:induction false} KeptWords(members: seq<string>, base: seq<string>, toks: seq<string>)
    requires |base| <= MAX && AllWords(base) && AllWords(toks)
    ensures AllWords(Kept(members, base, toks))
  {
    hide Keepable, Listed, Kept;
    if toks == [] {
      KeptNone(members, base);
    } else {
      var n := |toks| - 1;
      KeptWords(members, base, toks[..n]);
      KeptStep(members, base, toks);
      assert toks[n] in toks;
    }
  }

  lemma RebuiltWords(nodes: seq<Node>, backhaul: string, members: seq<string>, list: seq<string>)
    requires Spaceless(nodes) && AllWords(list)
    ensures AllWords(Rebuilt(nodes, backhaul, members, list))
  {
    hide Reports, Kept, Sort, IsWord;
    var base := First(Reports(nodes, backhaul));
    ReportsWords(nodes, backhaul);
    var e := Kept(members, base, list);
    KeptWords(members, base, list);
    SortKeeps(e);
    SameMembers(e, Sort(e));
  }

  /** A second refresh from the same reports finds the text it would write, and restarts no radio, exactly
      when no entry lost its right to stay by being cut. */
  lemma RefreshAgainIff(nodes: seq<Node>, backhaul: string, members: seq<string>, text: string)
    requires Spaceless(nodes)
    ensures var base := First(Reports(nodes, backhaul));
            var t := Joined(Rebuilt(nodes, backhaul, members, Words(text)));
            Joined(Rebuilt(nodes, backhaul, members, Words(t))) == t
            <==> AllKeepable(Kept(members, base, Words(text))[|base|..], members)
  {
    hide Reports, Kept, Words, Joined, IsWord, Rebuilt, Keepable;
    WordsAreWords(text);
    var r := Rebuilt(nodes, backhaul, members, Words(text));
    RebuiltWords(nodes, backhaul, members, Words(text));
    WordsOfJoined(r);
    RebuiltWords(nodes, backhaul, members, r);
    WordsOfJoined(Rebuilt(nodes, backhaul, members, r));
    IdempotentIff(nodes, backhaul, members, Words(text));
  }

  /** The text of a list that stays is not written again. */
  lemma TextStays(down: seq<Node>, nodes: seq<Node>, backhaul: string, members: seq<string>, list: seq<string>)
    requires |list| <= MAX && Short(list) && OnePerBssid(list) && AllKeepable(list, members) && Sorted(list)
    requires Fewer(down, nodes) && Distinct(Reports(nodes, backhaul))
    requires forall t :: t in Reports(nodes, backhaul) ==> t in list
    requires forall t :: t in list ==> IsWord(t)
    ensures Joined(Rebuilt(down, backhaul, members, Words(Joined(list)))) == Joined(list)
  {
    hide Reports, Keepable, OnePerBssid, Sorted, StrLe, Rebuilt, Words, Joined, Distinct;
    WordsOfJoined(list);
    OfflineNodesStay(down, nodes, backhaul, members, list);
  }

  // ---------------------------------------------------------------- the room for the text

  /** Ids and addresses fit the arrays of a node. */
  ghost predicate Fit(nodes: seq<Node>) {
    forall i :: 0 <= i < |nodes| ==>
      |nodes[i].id| < ID_MAX && forall j :: 0 <= j < |nodes[i].aps| ==> |nodes[i].aps[j].bssid| < MAC_MAX
  }

  lemma {:induction false} ApEntriesShort(id: string, aps: seq<Ap>, backhaul: string)
    requires |id| < ID_MAX && forall j :: 0 <= j < |aps| ==> |aps[j].bssid| < MAC_MAX
    ensures Short(ApEntries(id, aps, backhaul))
  {
    if aps != [] {
      ApEntriesShort(id, aps[..|aps| - 1], backhaul);
    }
  }

  lemma {:induction false} ReportsShort(nodes: seq<Node>, backhaul: string)
    requires Fit(nodes)
    ensures Short(Reports(nodes, backhaul))
  {
    hide ApEntries;
    if nodes != [] {
      var n := |nodes| - 1;
      ReportsShort(nodes[..n], backhaul);
      ApEntriesShort(nodes[n].id, nodes[n].aps, backhaul);
    }
  }

  lemma {:induction false} KeptShort(members: seq<string>, base: seq<string>, toks: seq<string>)
    requires |base| <= MAX && Short(base)
    ensures Short(Kept(members, base, toks))
  {
    hide Keepable, Listed;
    if toks != [] {
      KeptShort(members, base, toks[..|toks| - 1]);
    }
  }

  lemma JoinedStep(list: seq<string>)
    requires list != []
    ensures |Joined(list)| <= |Joined(list[..|list| - 1])| + 1 + |list[|list| - 1]|
  {
  }

  lemma {:induction false} JoinedLength(list: seq<string>)
    requires Short(list)
    ensures |Joined(list)| <= |list| * (ENTRY_MAX + 1)
  {
    if list != [] {
      hide Joined;
      var n := |list| - 1;
      JoinedLength(list[..n]);
      JoinedStep(list);
      assert list[n] in list;
    }
  }

  /** Sixteen entries always fit, so that the loop that writes the text never stops early. */
  lemma TextFits(nodes: seq<Node>, backhaul: string, members: seq<string>, list: seq<string>)
    requires Fit(nodes)
    ensures var r := Rebuilt(nodes, backhaul, members, list);
            Short(r) && |r| <= MAX && |Joined(r)| < TEXT_MAX
  {
    hide Kept, Sort, Reports, Joined;
    var base := First(Reports(nodes, backhaul));
    ReportsShort(nodes, backhaul);
    KeptShort(members, base, list);
    var e := Kept(members, base, list);
    SortKeeps(e);
    SameMembers(e, Sort(e));
    JoinedLength(Sort(e));
  }

  lemma {:induction false} JoinedPrefix(list: seq<string>, i: nat)
    requires i <= |list|
    ensures |Joined(list[..i])| <= |Joined(list)|
    decreases |list| - i
  {
    if i < |list| {
      JoinedPrefix(list, i + 1);
      assert list[..i + 1][..i] == list[..i];
    } else {
      assert list[..i] == list;
    }
  }

  /** The text of the list, and how often the radios were told to take a new one. */
  class KeyList {
    var text: string
    var applied: nat

    constructor (t: string)
      ensures text == t && applied == 0
    {
      text, applied := t, 0;
    }

    method Collect(nodes: seq<Node>, backhaul: string) returns (entries: seq<string>)
      ensures entries == First(Reports(nodes, backhaul))
    {
      hide ApEntries;
      entries := [];
      for i := 0 to |nodes|
        invariant entries == First(Reports(nodes[..i], backhaul))
      {
        assert nodes[..i + 1][..i] == nodes[..i];
        if !nodes[i].online {
          assert Reports(nodes[..i], backhaul) + [] == Reports(nodes[..i], backhaul);
          continue;
        }
        entries := CollectNode(entries, Reports(nodes[..i], backhaul), nodes[i], backhaul);
      }
      assert nodes[..|nodes|] == nodes;
    }

    method CollectNode(had: seq<string>, ghost before: seq<string>, node: Node, backhaul: string)
      returns (entries: seq<string>)
      requires had == First(before)
      ensures entries == First(before + ApEntries(node.id, node.aps, backhaul))
    {
      hide Entry;
      entries := had;
      var j := 0;
      while j < |node.aps| && |entries| < MAX
        invariant j <= |node.aps|
        invariant entries == First(before + ApEntries(node.id, node.aps[..j], backhaul))
      {
        assert node.aps[..j + 1][..j] == node.aps[..j];
        if Holds(node.aps[j], backhaul) {
          entries := entries + [Entry(node.id, node.aps[j])];
        }
        j := j + 1;
      }
      if j == |node.aps| {
        assert node.aps[..j] == node.aps;
      } else {
        ApEntriesGrow(node.id, node.aps, backhaul, j);
      }
    }

    /** The rebuilt list becomes the text; only a text that differs restarts the radios. */
    method Refresh(nodes: seq<Node>, backhaul: string, members: seq<string>)
      requires Fit(nodes)
      modifies this
      ensures text == Joined(Rebuilt(nodes, backhaul, members, Words(old(text))))
      ensures applied == old(applied) + if text == old(text) then 0 else 1
    {
      hide Keepable, SameBssid, Reports, Joined, Words, Sort;
      var entries := Collect(nodes, backhaul);
      var toks := Words(text);
      var n := 0;
      while n < |toks| && |entries| < MAX
        invariant n <= |toks| && entries == Kept(members, First(Reports(nodes, backhaul)), toks[..n])
      {
        assert toks[..n + 1][..n] == toks[..n];
        if Keepable(toks[n], members) && !Listed(entries, toks[n]) {
          entries := entries + [Cut(toks[n])];
        }
        n := n + 1;
      }
      KeptFull(members, First(Reports(nodes, backhaul)), toks, n);
      entries := Sort(entries);
      TextFits(nodes, backhaul, members, toks);
      var list := Write(entries);
      if text != list {
        text, applied := list, applied + 1;
      }
    }

    method Write(entries: seq<string>) returns (list: string)
      requires |Joined(entries)| < TEXT_MAX
      ensures list == Joined(entries)
    {
      list := "";
      for i := 0 to |entries|
        invariant list == Joined(entries[..i])
      {
        assert entries[..i + 1][..i] == entries[..i];
        JoinedPrefix(entries, i + 1);
        var piece := (if list == "" then "" else [SPACE]) + entries[i];
        if |list| + |piece| >= TEXT_MAX {
          break;
        }
        list := list + piece;
      }
      assert entries[..|entries|] == entries;
    }
  }

  lemma ApEntriesGrow(id: string, aps: seq<Ap>, backhaul: string, j: nat)
    requires j <= |aps|
    ensures ApEntries(id, aps[..j], backhaul) <= ApEntries(id, aps, backhaul)
    decreases |aps| - j
  {
    if j < |aps| {
      assert aps[..j + 1][..j] == aps[..j];
      ApEntriesGrow(id, aps, backhaul, j + 1);
    } else {
      assert aps[..j] == aps;
    }
  }
}
