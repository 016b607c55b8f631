/** A concrete list of key holders from which an entry leaves although its owner is a member of the system. */
module CrowdedOut {
  import MeshChain
  import MeshNode
  import opened MeshProfile
  import opened StringOrder
  import opened KeyHolders

  const DIGITS: string := "01234567"

  /** The address 02:00:00:00:0y:0x. */
  function Mac(y: char, x: char): string {
    "02:00:00:00:0" + [y] + ":0" + [x]
  }

  /** A node with eight access points for clients, the most a node can report. */
  function Crowded(id: string, y: char): Node {
    Node(id, true, seq(8, i requires 0 <= i < 8 => Ap("net", Mac(y, DIGITS[i]), "5")))
  }

  const MEMBER: string := "abcdef"
  const NODES: seq<Node> := [Crowded(SELF_ID, '0'), Crowded(MEMBER, '1')]
  /** An older access point of the member, which it does not report now. */
  const OLD: string := "02:00:00:00:02:00|abcdef-5"

  /** The entry is of one of the addresses above that start with y. */
  predicate OfNode(e: string, y: char) {
    |e| > 17 && e[13] == y
  }

  lemma {:induction false} CrowdEntries(id: string, y: char, aps: seq<Ap>)
    requires forall i :: 0 <= i < |aps| ==> Holds(aps[i], "") && |aps[i].bssid| == 17 && aps[i].bssid[13] == y
    ensures var e := ApEntries(id, aps, "");
            |e| == |aps| && forall t :: t in e ==> OfNode(t, y)
  {
    if aps != [] {
      CrowdEntries(id, y, aps[..|aps| - 1]);
    }
  }

  lemma CrowdHolds(id: string, y: char)
    ensures var n := Crowded(id, y);
      && n.id == id && n.online && |n.aps| == 8
      && forall i :: 0 <= i < 8 ==> Holds(n.aps[i], "") && |n.aps[i].bssid| == 17 && n.aps[i].bssid[13] == y
  {
  }

  lemma CrowdReports()
    ensures var base := Reports(NODES, "");
            |base| == 16 && forall t :: t in base ==> OfNode(t, '0') || OfNode(t, '1')
  {
    hide ApEntries, Holds, Crowded, OfNode;
    var a, b := NODES[0], NODES[1];
    CrowdHolds(SELF_ID, '0');
    CrowdHolds(MEMBER, '1');
    CrowdEntries(a.id, '0', a.aps);
    CrowdEntries(b.id, '1', b.aps);
    assert NODES[..1] == [a] && [a][..0] == [];
    assert Reports([], "") == [] && Reports([a], "") == [] + ApEntries(a.id, a.aps, "");
    assert Reports(NODES, "") == Reports([a], "") + ApEntries(b.id, b.aps, "");
  }

  lemma OldBarred()
    ensures Bar(OLD) == 17 && |OLD| == 26
  {
    BarUnique(OLD, 17);
  }

  lemma OldOwner()
    ensures OwnerOf("abcdef-5") == MEMBER
  {
    var n := "abcdef-5";
    assert n[6] == MeshChain.DASH && n[7] == '5';
    assert MeshNode.LastDash(n) == 6 && n[..6] == MEMBER;
  }

  lemma OldIsAnAddress()
    ensures !(NO_BSSID <= OLD) && OLD[18..] == "abcdef-5"
  {
    assert OLD[1] == '2' && NO_BSSID[1] == '0';
  }

  lemma OldKeepable()
    ensures Keepable(OLD, [MEMBER]) && Short([OLD])
  {
    OldBarred();
    OldIsAnAddress();
    OldOwner();
    hide Bar, OwnerOf, OLD;
  }

  lemma OtherAddress(e: string, y: char)
    requires OfNode(e, y) && (y == '0' || y == '1')
    ensures !SameBssid(e, OLD)
  {
    OldBarred();
    hide Bar;
    assert Lower(e[..17])[13] == y && Lower(OLD[..17])[13] == '2';
  }

  /** Nobody reports the old address. */
  lemma OldUnlisted(base: seq<string>)
    requires forall t :: t in base ==> OfNode(t, '0') || OfNode(t, '1')
    ensures !Listed(base, OLD)
  {
    hide SameBssid, Bar, OfNode, OLD;
    forall i | 0 <= i < |base|
      ensures !SameBssid(base[i], OLD)
    {
      assert base[i] in base;
      OtherAddress(base[i], if OfNode(base[i], '0') then '0' else '1');
    }
  }

  /** An entry whose owner is a member, and whose address nobody reports anew, can leave the list. */
  lemma EntryLeaves()
    ensures forall i :: 0 <= i < |NODES| ==> |NODES[i].aps| == 8
    ensures Keepable(OLD, [MEMBER]) && !Listed(Reports(NODES, ""), OLD)
    ensures !Listed(Rebuilt(NODES, "", [MEMBER], [OLD]), OLD) && OLD !in Rebuilt(NODES, "", [MEMBER], [OLD])
  {
    hide Reports, Sort, Keepable, Kept, Bar, Rebuilt, Listed, SameBssid, Crowded, OfNode, OLD, MEMBER;
    var base := Reports(NODES, "");
    CrowdHolds(SELF_ID, '0');
    CrowdHolds(MEMBER, '1');
    CrowdReports();
    OldUnlisted(base);
    OldKeepable();
    OldBarred();
    assert [OLD][..0] == [];
    KeptNone([MEMBER], First(base));
    AddressLeavesIff(NODES, "", [MEMBER], [OLD], 0);
    UnlistedNotIn(Rebuilt(NODES, "", [MEMBER], [OLD]), OLD);
  }

  lemma UnlistedNotIn(r: seq<string>, t: string)
    requires Bar(t) < |t| && !Listed(r, t)
    ensures t !in r
  {
    hide SameBssid;
    SameAsItself(t);
    assert forall i :: 0 <= i < |r| ==> !SameBssid(r[i], t);
  }
}
