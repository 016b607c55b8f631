/** Chains of node ids joined by dashes, and the search in package/roamd/src/mesh.c. */
module MeshChain {
  const DASH: char := '-'

  /** The first dash of s at or after place i, or the end. */
  function NextDash(s: string, i: nat): (r: nat)
    requires i <= |s|
    ensures i <= r <= |s| && (r < |s| ==> s[r] == DASH) && forall j :: i <= j < r ==> s[j] != DASH
    decreases |s| - i
  {
    if i == |s| || s[i] == DASH then i else NextDash(s, i + 1)
  }

  /** The pieces between dashes. */
  function Tokens(s: string): (t: seq<string>)
    ensures t != []
    decreases |s|
  {
    var d := NextDash(s, 0);
    if d == |s| then [s] else [s[..d]] + Tokens(s[d + 1..])
  }

  function Join(t: seq<string>): string
    requires t != []
  {
    if |t| == 1 then t[0] else t[0] + [DASH] + Join(t[1..])
  }

  predicate Plain(id: string) {
    id != "" && DASH !in id
  }

  /** id stands at place p, delimited on both sides by a dash or an end. */
  predicate TokenAt(s: string, id: string, p: int) {
    && 0 <= p <= |s| - |id| && s[p..p + |id|] == id
    && (p == 0 || s[p - 1] == DASH) && (p + |id| == |s| || s[p + |id|] == DASH)
  }

  lemma {:induction false} TokenPlace(s: string, id: string) returns (p: nat)
    requires id in Tokens(s)
    ensures TokenAt(s, id, p)
    decreases |s|
  {
    var d := NextDash(s, 0);
    if d == |s| {
      p := 0;
    } else if id == s[..d] {
      p := 0;
    } else {
      var rest := s[d + 1..];
      assert Tokens(s) == [s[..d]] + Tokens(rest);
      hide TokenAt;
      var q := TokenPlace(rest, id);
      p := d + 1 + q;
      TokenShift(s, id, d, q);
    }
  }

  lemma TokenShift(s: string, id: string, d: nat, q: nat)
    requires d < |s| && s[d] == DASH && TokenAt(s[d + 1..], id, q)
    ensures TokenAt(s, id, d + 1 + q)
  {
    var rest := s[d + 1..];
    assert s[d + 1 + q..d + 1 + q + |id|] == rest[q..q + |id|];
  }

  lemma {:induction false} PlaceToken(s: string, id: string, p: int)
    requires Plain(id) && TokenAt(s, id, p)
    ensures id in Tokens(s)
    decreases |s|
  {
    var d := NextDash(s, 0);
    if d == |s| {
      assert p == 0 && s[..|s|] == s;
    } else {
      FirstOrRest(s, id, p, d);
      if TokenAt(s[d + 1..], id, p - d - 1) {
        PlaceToken(s[d + 1..], id, p - d - 1);
      }
    }
  }

  /** A delimited id is the first piece or lies after the first dash. */
  lemma FirstOrRest(s: string, id: string, p: int, d: nat)
    requires Plain(id) && TokenAt(s, id, p) && d == NextDash(s, 0) < |s|
    ensures (p == 0 && id == s[..d]) || TokenAt(s[d + 1..], id, p - d - 1)
  {
    var rest := s[d + 1..];
    if p == 0 {
      assert |id| == |s| || s[|id|] == DASH;
      assert forall j :: 0 <= j < |id| ==> id[j] == s[j];
      assert |id| == d;
    } else {
      assert p - 1 >= d;
      assert rest[p - d - 1..p - d - 1 + |id|] == s[p..p + |id|];
    }
  }

  predicate Occurs(s: string, id: string, p: nat) {
    p + |id| <= |s| && s[p..p + |id|] == id
  }

  /** strstr: the first occurrence at or after from, or -1. */
  function FirstOccurrence(s: string, id: string, from: nat): (p: int)
    ensures p >= 0 ==> from <= p && Occurs(s, id, p)
    ensures p >= 0 ==> forall q :: from <= q < p ==> !Occurs(s, id, q)
    ensures p < 0 ==> p == -1 && forall q :: from <= q ==> !Occurs(s, id, q)
    decreases |s| - from
  {
    if from + |id| > |s| then -1
    else if s[from..from + |id|] == id then from
    else FirstOccurrence(s, id, from + 1)
  }

  /** What the search answers from place p on: after an undelimited occurrence it goes on behind it. */
  predicate Searched(s: string, id: string, p: nat)
    requires id != "" && p <= |s|
    decreases |s| - p
  {
    var m := FirstOccurrence(s, id, p);
    m >= 0 && (TokenAt(s, id, m) || Searched(s, id, m + |id|))
  }

  predicate ChainHas(chain: string, id: string) {
    id != "" && Searched(chain, id, 0)
  }

  lemma {:induction false} SearchedIff(s: string, id: string, p: nat)
    requires Plain(id) && p <= |s| && forall q :: 0 <= q < p ==> !TokenAt(s, id, q)
    ensures Searched(s, id, p) <==> id in Tokens(s)
    decreases |s| - p
  {
    var m := FirstOccurrence(s, id, p);
    if m < 0 {
      assert forall q :: TokenAt(s, id, q) && q >= p ==> Occurs(s, id, q);
      if id in Tokens(s) {
        var q := TokenPlace(s, id);
      }
    } else if TokenAt(s, id, m) {
      PlaceToken(s, id, m);
    } else {
      forall q | p <= q < m + |id|
        ensures !TokenAt(s, id, q)
      {
        if q < m {
          assert !Occurs(s, id, q);
        } else if q > m {
          assert s[q - 1] == id[q - 1 - m];
        }
      }
      SearchedIff(s, id, m + |id|);
    }
  }

  /** An id without dashes is found exactly when it is one of the pieces: skipping an occurrence loses nothing. */
  lemma ChainHasIff(chain: string, id: string)
    requires id == "" || Plain(id)
    ensures ChainHas(chain, id) <==> id != "" && id in Tokens(chain)
  {
    if id != "" {
      SearchedIff(chain, id, 0);
    }
  }

  /** An id with dashes can be missed: this chain ends in it, and the search steps over its end. */
  lemma DashedIdMissed()
    ensures TokenAt("xa-a-a", "a-a", 3) && !ChainHas("xa-a-a", "a-a")
  {
    var s, id := "xa-a-a", "a-a";
    assert s[3..6] == id && s[1..4] == id && s[0..3] == "xa-";
    assert FirstOccurrence(s, id, 0) == 1;
    assert FirstOccurrence(s, id, 4) == -1;
  }

  method StrStr(s: string, id: string, from: nat) returns (p: int)
    requires from <= |s|
    ensures p == FirstOccurrence(s, id, from)
  {
    var i := from;
    while i + |id| <= |s|
      invariant from <= i
      invariant FirstOccurrence(s, id, from) == FirstOccurrence(s, id, i)
    {
      if s[i..i + |id|] == id {
        return i;
      }
      i := i + 1;
    }
    return -1;
  }

  method MeshChainHas(chain: string, id: string) returns (r: bool)
    ensures r == ChainHas(chain, id)
    ensures id == "" || Plain(id) ==> (r <==> id != "" && id in Tokens(chain))
  {
    hide FirstOccurrence, Tokens;
    if id == "" || Plain(id) {
      ChainHasIff(chain, id);
    }
    var len := |id|;
    var p := 0;
    while len != 0
      invariant 0 <= p <= |chain|
      invariant len != 0 ==> Searched(chain, id, p) == ChainHas(chain, id)
      decreases |chain| - p
    {
      var m := StrStr(chain, id, p);
      if m < 0 {
        return false;
      }
      if (m == 0 || chain[m - 1] == DASH) && (m + len == |chain| || chain[m + len] == DASH) {
        return true;
      }
      p := m + len;
    }
    return false;
  }

  /** Pieces without dashes are found again in the joined chain. */
  lemma {:induction false} TokensOfJoin(t: seq<string>)
    requires t != [] && forall i :: 0 <= i < |t| ==> Plain(t[i])
    ensures Tokens(Join(t)) == t
  {
    var s := Join(t);
    var d := NextDash(s, 0);
    if |t| == 1 {
      assert d == |s|;
    } else {
      var rest := Join(t[1..]);
      assert s == t[0] + [DASH] + rest;
      assert s[|t[0]|] == DASH && s[..|t[0]|] == t[0];
      assert forall j :: 0 <= j < |t[0]| ==> s[j] == t[0][j];
      assert d == |t[0]|;
      assert s[d + 1..] == rest;
      TokensOfJoin(t[1..]);
    }
  }

  lemma {:induction false} JoinPush(t: seq<string>, x: string)
    requires t != []
    ensures Join(t + [x]) == Join(t) + [DASH] + x
  {
    if |t| == 1 {
      assert (t + [x])[1..] == [x];
    } else {
      assert (t + [x])[1..] == t[1..] + [x];
      JoinPush(t[1..], x);
    }
  }
}
