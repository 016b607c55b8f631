/** The choice among the parents heard in a scan (package/roamd/src/mesh_node.c). */
module ParentChoice {
  import opened MeshNode

  /** What the choice depends on besides the scan. */
  datatype Settings = Settings(minSignal: int, delta: int, penalized: set<string>)

  /** Weak, usable or strong. */
  function ClassOf(signal: int, stable: bool, s: Settings): nat {
    if !stable || signal < s.minSignal then 0
    else if signal >= STRONG then 2 else 1
  }

  function Class(p: Parent, s: Settings): nat {
    ClassOf(p.signal, p.samples > 1, s)
  }

  /** 5 GHz unless it is too weak or too much weaker than 2.4 GHz. */
  function BandPick(ps: seq<Parent>, i24: int, i5: int, s: Settings): int
    requires i24 < |ps| && i5 < |ps|
  {
    if i5 < 0 then i24
    else if i24 < 0 || (ps[i5].signal >= s.minSignal && ps[i5].signal >= ps[i24].signal - s.delta) then i5
    else i24
  }

  /** Better link class, then fewer hops, then stronger signal. */
  predicate Better(ps: seq<Parent>, a: int, b: int, s: Settings)
    requires 0 <= a < |ps| && b < |ps|
  {
    b < 0 ||
    var ca, cb := Class(ps[a], s), Class(ps[b], s);
    if ca != cb then ca > cb
    else if ps[a].depth != ps[b].depth then ps[a].depth < ps[b].depth
    else ps[a].signal > ps[b].signal
  }

  predicate Heard(p: Parent, chain: string, band5: bool) {
    p.chain == chain && p.band5 == band5 && p.samples > 0
  }

  /** The first among the strongest heard on one band of one owner. */
  function Strongest(ps: seq<Parent>, chain: string, band5: bool): (r: int)
    ensures -1 <= r < |ps| && (r >= 0 ==> Heard(ps[r], chain, band5))
    ensures r < 0 ==> forall j :: 0 <= j < |ps| ==> !Heard(ps[j], chain, band5)
    ensures r >= 0 ==> forall j :: 0 <= j < |ps| && Heard(ps[j], chain, band5) ==> ps[j].signal <= ps[r].signal
    ensures r >= 0 ==> forall j :: 0 <= j < r && Heard(ps[j], chain, band5) ==> ps[j].signal < ps[r].signal
  {
    if ps == [] then -1 else
    var n := |ps| - 1;
    var r := Strongest(ps[..n], chain, band5);
    if Heard(ps[n], chain, band5) && (r < 0 || ps[n].signal > ps[r].signal) then n else r
  }

  function PickOf(ps: seq<Parent>, chain: string, s: Settings): (r: int)
    ensures -1 <= r < |ps| && (r >= 0 ==> ps[r].chain == chain && ps[r].samples > 0)
    ensures r < 0 ==> forall j :: 0 <= j < |ps| && ps[j].chain == chain ==> ps[j].samples == 0
  {
    var i24, i5 := Strongest(ps, chain, false), Strongest(ps, chain, true);
    assert forall j :: 0 <= j < |ps| && ps[j].chain == chain && ps[j].samples > 0 ==> Heard(ps[j], chain, ps[j].band5);
    BandPick(ps, i24, i5, s)
  }

  predicate Eligible(chain: string, allow: bool, s: Settings) {
    allow || Owner(chain) !in s.penalized
  }

  /** The pick of an owner that may be considered, or -1. */
  function Candidate(ps: seq<Parent>, chain: string, allow: bool, s: Settings): (r: int)
    ensures -1 <= r < |ps|
  {
    if Eligible(chain, allow, s) then PickOf(ps, chain, s) else -1
  }

  // ---------------------------------------------------------------- what is chosen

  /** The first of the strongest records of its owner on its band: 5 GHz where the strongest there is neither
      too weak nor too much weaker than any of 2.4 GHz, otherwise 2.4 GHz. */
  predicate Picked(ps: seq<Parent>, r: nat, s: Settings) {
    && r < |ps| && ps[r].samples > 0
    && (forall j :: 0 <= j < |ps| && Heard(ps[j], ps[r].chain, ps[r].band5) ==> ps[j].signal <= ps[r].signal)
    && (forall j :: 0 <= j < r && Heard(ps[j], ps[r].chain, ps[r].band5) ==> ps[j].signal < ps[r].signal)
    && forall j :: 0 <= j < |ps| && Heard(ps[j], ps[r].chain, !ps[r].band5) ==>
         if ps[r].band5 then ps[r].signal >= s.minSignal && ps[r].signal + s.delta >= ps[j].signal
         else ps[j].signal < s.minSignal || ps[j].signal + s.delta < ps[r].signal
  }

  lemma PickIff(ps: seq<Parent>, r: nat, s: Settings)
    ensures Picked(ps, r, s) <==> r < |ps| && r == PickOf(ps, ps[r].chain, s)
  {
    if r < |ps| {
      var i24, i5 := Strongest(ps, ps[r].chain, false), Strongest(ps, ps[r].chain, true);
      assert Heard(ps[r], ps[r].chain, ps[r].band5) <==> ps[r].samples > 0;
    }
  }

  predicate Steady(p: Parent, s: Settings) {
    p.samples > 1 && p.signal >= s.minSignal
  }

  predicate Strong(p: Parent, s: Settings) {
    Steady(p, s) && p.signal >= STRONG
  }

  /** p is not to be preferred to q: not by the class of its link, nor in one class by fewer hops, nor
      with as many hops by a stronger signal. */
  predicate NotAhead(p: Parent, q: Parent, s: Settings) {
    && (Steady(p, s) ==> Steady(q, s)) && (Strong(p, s) ==> Strong(q, s))
    && (Steady(p, s) == Steady(q, s) && Strong(p, s) == Strong(q, s) ==>
         q.depth < p.depth || (q.depth == p.depth && p.signal <= q.signal))
  }

  lemma NotAheadIff(ps: seq<Parent>, a: nat, b: nat, s: Settings)
    requires a < |ps| && b < |ps|
    ensures NotAhead(ps[a], ps[b], s) <==> !Better(ps, a, b, s)
  {
  }

  /** A pick that may be considered, and no other one is ahead of it. */
  ghost predicate Chosen(ps: seq<Parent>, best: nat, allow: bool, s: Settings) {
    && Picked(ps, best, s) && Eligible(ps[best].chain, allow, s)
    && forall c: nat :: Picked(ps, c, s) && Eligible(ps[c].chain, allow, s) ==> NotAhead(ps[c], ps[best], s)
  }

  lemma BestIsChosen(ps: seq<Parent>, best: int, allow: bool, s: Settings)
    requires BestOf(ps, best, |ps|, allow, s) && best >= 0
    ensures Chosen(ps, best, allow, s)
  {
    hide NotAhead, Better, PickOf;
    CandidateChain(ps, ps[best].chain, allow, s);
    PickIff(ps, best, s);
    forall c: nat | Picked(ps, c, s) && Eligible(ps[c].chain, allow, s)
      ensures NotAhead(ps[c], ps[best], s)
    {
      PickIff(ps, c, s);
      assert Candidate(ps, ps[c].chain, allow, s) == c;
      NotAheadIff(ps, c, best, s);
    }
  }

  /** best is one owner's pick and no pick of an owner seen so far beats it. */
  predicate BestOf(ps: seq<Parent>, best: int, upto: nat, allow: bool, s: Settings)
    requires upto <= |ps|
  {
    && -1 <= best < |ps|
    && (best >= 0 ==> best == Candidate(ps, ps[best].chain, allow, s))
    && (best < 0 ==> forall j :: 0 <= j < upto ==> Candidate(ps, ps[j].chain, allow, s) < 0)
    && (best >= 0 ==> forall j :: 0 <= j < upto ==>
          var c := Candidate(ps, ps[j].chain, allow, s);
          c >= 0 ==> !Better(ps, c, best, s))
  }

  lemma StrongestStep(ps: seq<Parent>, j: nat, chain: string, band5: bool)
    requires j < |ps|
    ensures var r := Strongest(ps[..j], chain, band5);
      Strongest(ps[..j + 1], chain, band5) ==
        if Heard(ps[j], chain, band5) && (r < 0 || ps[j].signal > ps[r].signal) then j else r
  {
    assert ps[..j + 1][..j] == ps[..j];
  }

  /** The strongest of one owner among the records from i on, none of which comes before i. */
  method Group(ps: seq<Parent>, i: nat, skip: bool, done: array<bool>) returns (i24: int, i5: int)
    requires i < |ps| == done.Length
    requires forall j :: 0 <= j < i ==> ps[j].chain != ps[i].chain
    modifies done
    ensures forall j :: 0 <= j < |ps| ==> done[j] == (old(done[j]) || ps[j].chain == ps[i].chain)
    ensures i24 == if skip then -1 else Strongest(ps, ps[i].chain, false)
    ensures i5 == if skip then -1 else Strongest(ps, ps[i].chain, true)
  {
    hide Strongest;
    var chain := ps[i].chain;
    i24, i5 := -1, -1;
    NoneBefore(ps, i, chain);
    var j := i;
    while j < |ps|
      invariant i <= j <= |ps|
      invariant forall k :: 0 <= k < |ps| ==> done[k] == (old(done[k]) || (k < j && ps[k].chain == chain))
      invariant i24 == if skip then -1 else Strongest(ps[..j], chain, false)
      invariant i5 == if skip then -1 else Strongest(ps[..j], chain, true)
    {
      StrongestStep(ps, j, chain, false);
      StrongestStep(ps, j, chain, true);
      var p := ps[j];
      if p.chain == chain {
        done[j] := true;
        if !skip && p.samples != 0 {
          if p.band5 {
            if i5 < 0 || p.signal > ps[i5].signal {
              i5 := j;
            }
          } else {
            if i24 < 0 || p.signal > ps[i24].signal {
              i24 := j;
            }
          }
        }
      }
      j := j + 1;
    }
    assert ps[..|ps|] == ps;
  }

  lemma NoneBefore(ps: seq<Parent>, i: nat, chain: string)
    requires i <= |ps| && forall j :: 0 <= j < i ==> ps[j].chain != chain
    ensures Strongest(ps[..i], chain, false) == -1 && Strongest(ps[..i], chain, true) == -1
  {
  }

  /**
   The chosen parent: -1 exactly when no owner that may be considered was heard, otherwise the
   band pick of one owner that no other owner's pick beats.
   */
  method Choose(ps: seq<Parent>, allow: bool, s: Settings) returns (best: int)
    ensures BestOf(ps, best, |ps|, allow, s) && (best >= 0 ==> Chosen(ps, best, allow, s))
    ensures best == -1 <==> forall j :: 0 <= j < |ps| && ps[j].samples > 0 ==> !Eligible(ps[j].chain, allow, s)
  {
    hide Chosen, BestOf, Better, Candidate, SeenBefore, Strongest;
    Nothing(ps, allow, s);
    var done := new bool[|ps|](_ => false);
    best := -1;
    for i := 0 to |ps|
      invariant forall j :: 0 <= j < |ps| ==> (done[j] <==> SeenBefore(ps, j, i))
      invariant -1 <= best < |ps| && BestOf(ps, best, i, allow, s)
    {
      SeenStep(ps, i);
      if done[i] {
        BestSeen(ps, best, i, allow, s);
        continue;
      }
      var skip := !allow && Owner(ps[i].chain) in s.penalized;
      NotSeen(ps, i);
      var i24, i5 := Group(ps, i, skip, done);
      var pick := BandPick(ps, i24, i5, s);
      CandidateIs(ps, ps[i].chain, allow, s);
      BestStep(ps, best, i, allow, s);
      if pick >= 0 && Better(ps, pick, best, s) {
        best := pick;
      }
    }
    BestFound(ps, best, allow, s);
    if best >= 0 {
      BestIsChosen(ps, best, allow, s);
    }
  }

  lemma SeenStep(ps: seq<Parent>, i: nat)
    requires i < |ps|
    ensures forall j :: 0 <= j < |ps| ==>
      (SeenBefore(ps, j, i + 1) <==> SeenBefore(ps, j, i) || ps[j].chain == ps[i].chain)
  {
    forall j | 0 <= j < |ps|
      ensures SeenBefore(ps, j, i + 1) <==> SeenBefore(ps, j, i) || ps[j].chain == ps[i].chain
    {
      if SeenBefore(ps, j, i) {
        var k :| 0 <= k < i && ps[k].chain == ps[j].chain;
      }
    }
  }

  lemma NotSeen(ps: seq<Parent>, i: nat)
    requires i < |ps| && !SeenBefore(ps, i, i)
    ensures forall j :: 0 <= j < i ==> ps[j].chain != ps[i].chain
  {
  }

  /** An owner seen before brings nothing new. */
  lemma BestSeen(ps: seq<Parent>, best: int, i: nat, allow: bool, s: Settings)
    requires i < |ps| && BestOf(ps, best, i, allow, s) && SeenBefore(ps, i, i)
    ensures BestOf(ps, best, i + 1, allow, s)
    ensures forall j :: 0 <= j < |ps| && ps[j].chain == ps[i].chain ==> SeenBefore(ps, j, i)
  {
    hide Candidate, Better;
    var k :| 0 <= k < i && ps[k].chain == ps[i].chain;
    assert Candidate(ps, ps[k].chain, allow, s) == Candidate(ps, ps[i].chain, allow, s);
  }

  /** A new owner's pick replaces the best one when it is better. */
  lemma BestStep(ps: seq<Parent>, best: int, i: nat, allow: bool, s: Settings)
    requires i < |ps| && BestOf(ps, best, i, allow, s)
    ensures var c := Candidate(ps, ps[i].chain, allow, s);
      BestOf(ps, if c >= 0 && Better(ps, c, best, s) then c else best, i + 1, allow, s)
  {
    hide Candidate, Better;
    var c := Candidate(ps, ps[i].chain, allow, s);
    CandidateChain(ps, ps[i].chain, allow, s);
    BetterThanNone(ps, best, s);
    if c >= 0 && Better(ps, c, best, s) {
      forall j | 0 <= j < i && Candidate(ps, ps[j].chain, allow, s) >= 0
        ensures !Better(ps, Candidate(ps, ps[j].chain, allow, s), c, s)
      {
        BetterOrder(ps, Candidate(ps, ps[j].chain, allow, s), c, best, s);
      }
      BetterOrder(ps, c, c, best, s);
    }
  }

  lemma CandidateChain(ps: seq<Parent>, chain: string, allow: bool, s: Settings)
    ensures var c := Candidate(ps, chain, allow, s);
      c >= 0 ==> ps[c].chain == chain && ps[c].samples > 0 && Eligible(chain, allow, s)
  {
  }

  /** What does not beat the old best does not beat a better one; and nothing beats itself. */
  lemma BetterOrder(ps: seq<Parent>, a: int, c: int, best: int, s: Settings)
    requires 0 <= a < |ps| && 0 <= c < |ps| && best < |ps| && Better(ps, c, best, s)
    requires best >= 0 ==> !Better(ps, a, best, s) || a == c
    requires best < 0 ==> a == c
    ensures !Better(ps, a, c, s)
  {
  }

  lemma CandidateIs(ps: seq<Parent>, chain: string, allow: bool, s: Settings)
    ensures Candidate(ps, chain, allow, s) ==
      if !allow && Owner(chain) in s.penalized then -1
      else BandPick(ps, Strongest(ps, chain, false), Strongest(ps, chain, true), s)
    ensures BandPick(ps, -1, -1, s) == -1
  {
  }

  lemma BetterThanNone(ps: seq<Parent>, best: int, s: Settings)
    requires -1 <= best < |ps|
    ensures best < 0 ==> forall c :: 0 <= c < |ps| ==> Better(ps, c, best, s)
  {
  }

  lemma BestFound(ps: seq<Parent>, best: int, allow: bool, s: Settings)
    requires BestOf(ps, best, |ps|, allow, s)
    ensures best == -1 <==> forall j :: 0 <= j < |ps| && ps[j].samples > 0 ==> !Eligible(ps[j].chain, allow, s)
  {
    if best >= 0 {
      CandidateChain(ps, ps[best].chain, allow, s);
    } else {
      forall j | 0 <= j < |ps| && ps[j].samples > 0
        ensures !Eligible(ps[j].chain, allow, s)
      {
        assert Candidate(ps, ps[j].chain, allow, s) < 0;
      }
    }
  }

  lemma Nothing(ps: seq<Parent>, allow: bool, s: Settings)
    ensures BestOf(ps, -1, 0, allow, s) && forall j :: 0 <= j < |ps| ==> !SeenBefore(ps, j, 0)
  {
  }

  ghost predicate SeenBefore(ps: seq<Parent>, j: nat, i: nat)
    requires j < |ps| && i <= |ps|
  {
    exists k :: 0 <= k < i && ps[k].chain == ps[j].chain
  }

  /** A penalised owner is chosen only when every owner that was heard is penalised. */
  method Select(ps: seq<Parent>, s: Settings) returns (best: int)
    ensures best == -1 <==> forall j :: 0 <= j < |ps| ==> ps[j].samples == 0
    ensures best >= 0 ==> best < |ps| && ps[best].samples > 0
    ensures best >= 0 && Owner(ps[best].chain) in s.penalized ==>
      forall j :: 0 <= j < |ps| && ps[j].samples > 0 ==> Owner(ps[j].chain) in s.penalized
    ensures best >= 0 ==> Chosen(ps, best, Owner(ps[best].chain) in s.penalized, s)
  {
    best := Choose(ps, false, s);
    if best < 0 {
      best := Choose(ps, true, s);
    }
  }
}
