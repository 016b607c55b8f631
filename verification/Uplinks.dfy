/**
 The backhaul graph: every node has at most one uplink. Links may be stale, so the graph may
 have cycles and links into nothing.
 */
module Uplinks {
  /** At a root (with its depth), under another node, or under nothing known. */
  datatype Up = Root(depth: nat) | Via(to: nat) | Lost

  predicate Valid(g: seq<Up>) {
    forall i :: 0 <= i < |g| ==> g[i].Via? ==> g[i].to < |g|
  }

  /** Following k links from i ends at a root. */
  predicate Reaches(g: seq<Up>, i: nat, k: nat)
    requires Valid(g) && i < |g|
    decreases k
  {
    match g[i]
    case Root(_) => k == 0
    case Via(j) => k > 0 && Reaches(g, j, k - 1)
    case Lost => false
  }

  ghost predicate Attached(g: seq<Up>, i: nat)
    requires Valid(g) && i < |g|
  {
    exists k: nat :: Reaches(g, i, k)
  }

  function Depth(g: seq<Up>, i: nat, k: nat): nat
    requires Valid(g) && i < |g| && Reaches(g, i, k)
    decreases k
  {
    match g[i]
    case Root(d) => d
    case Via(j) => Depth(g, j, k - 1) + 1
  }

  /** The nodes on the way, the one at the root first. */
  function Path(g: seq<Up>, i: nat, k: nat): (p: seq<nat>)
    requires Valid(g) && i < |g| && Reaches(g, i, k)
    ensures |p| == k + 1 && p[k] == i
    decreases k
  {
    match g[i]
    case Root(_) => [i]
    case Via(j) => Path(g, j, k - 1) + [i]
  }

  /** The way to the root is unique. */
  lemma {:induction false} ReachesOnce(g: seq<Up>, i: nat, k: nat, m: nat)
    requires Valid(g) && i < |g| && Reaches(g, i, k) && Reaches(g, i, m)
    ensures k == m
    decreases k
  {
    if g[i].Via? {
      ReachesOnce(g, g[i].to, k - 1, m - 1);
    }
  }

  /** From a set of nodes that only link to each other no root is reached. */
  lemma {:induction false} ClosedNever(g: seq<Up>, s: set<nat>, i: nat, k: nat)
    requires Valid(g) && i in s
    requires forall j :: j in s ==> j < |g| && g[j].Via? && g[j].to in s
    ensures !Reaches(g, i, k)
    decreases k
  {
    if k > 0 {
      ClosedNever(g, s, g[i].to, k - 1);
    }
  }

  // ---------------------------------------------------------------- moving a node

  lemma {:induction false} PathInRange(g: seq<Up>, i: nat, k: nat)
    requires Valid(g) && i < |g| && Reaches(g, i, k)
    ensures forall n :: n in Path(g, i, k) ==> n < |g|
    decreases k
  {
    if g[i].Via? {
      PathInRange(g, g[i].to, k - 1);
    }
  }

  /** A way that does not pass x is not affected when x moves. */
  lemma {:induction false} MoveAside(g: seq<Up>, x: nat, u: Up, i: nat, k: nat)
    requires Valid(g) && x < |g| && i < |g| && (u.Via? ==> u.to < |g|)
    requires Reaches(g, i, k) && x !in Path(g, i, k)
    ensures Reaches(g[x := u], i, k) && Path(g[x := u], i, k) == Path(g, i, k)
    decreases k
  {
    if g[i].Via? {
      MoveAside(g, x, u, g[i].to, k - 1);
    }
  }

  /** A way that passes x goes through x's new uplink. */
  lemma {:induction false} MoveAlong(g: seq<Up>, x: nat, u: Up, i: nat, k: nat)
    requires Valid(g) && x < |g| && i < |g| && (u.Via? ==> u.to < |g|)
    requires Reaches(g, i, k) && Attached(g[x := u], x)
    ensures Attached(g[x := u], i)
    decreases k
  {
    var h := g[x := u];
    if i == x {
    } else if g[i].Via? {
      MoveAlong(g, x, u, g[i].to, k - 1);
      var m: nat :| Reaches(h, g[i].to, m);
      assert Reaches(h, i, m + 1);
    } else {
      assert Reaches(h, i, 0);
    }
  }

  /** k links up from i, if there are so many. */
  function Above(g: seq<Up>, i: nat, k: nat): (r: int)
    requires Valid(g) && i < |g|
    ensures r < |g|
    decreases k
  {
    if k == 0 then i
    else if g[i].Via? then Above(g, g[i].to, k - 1)
    else -1
  }

  /** No node is above itself. */
  ghost predicate Acyclic(g: seq<Up>)
    requires Valid(g)
  {
    forall i, k: nat :: 0 <= i < |g| && k > 0 ==> Above(g, i, k) != i
  }

  lemma {:induction false} AboveAdd(g: seq<Up>, i: nat, a: nat, b: nat)
    requires Valid(g) && i < |g| && Above(g, i, a) >= 0
    ensures Above(g, i, a + b) == Above(g, Above(g, i, a), b)
    decreases a
  {
    if a > 0 {
      AboveAdd(g, g[i].to, a - 1, b);
    }
  }

  lemma {:induction false} RootAbove(g: seq<Up>, i: nat, k: nat)
    requires Valid(g) && i < |g| && Reaches(g, i, k)
    ensures Above(g, i, k + 1) == -1
    decreases k
  {
    if g[i].Via? {
      RootAbove(g, g[i].to, k - 1);
    }
  }

  /** A node above itself stays so after any number of rounds, so it never reaches a root. */
  lemma {:induction false} CycleRounds(g: seq<Up>, i: nat, k: nat, n: nat)
    requires Valid(g) && i < |g| && k > 0 && Above(g, i, k) == i
    ensures Above(g, i, n * k) == i
    decreases n
  {
    if n == 0 {
      assert n * k == 0;
    } else {
      CycleRounds(g, i, k, n - 1);
      AboveAdd(g, i, (n - 1) * k, k);
      assert (n - 1) * k + k == n * k;
    }
  }

  lemma {:induction false} NoneAbove(g: seq<Up>, i: nat, k: nat, m: nat)
    requires Valid(g) && i < |g| && k <= m && Above(g, i, k) == -1
    ensures Above(g, i, m) == -1
    decreases k
  {
    if k > 0 && g[i].Via? {
      NoneAbove(g, g[i].to, k - 1, m - 1);
    }
  }

  lemma CycleNotAttached(g: seq<Up>, i: nat, k: nat)
    requires Valid(g) && i < |g| && k > 0 && Above(g, i, k) == i
    ensures !Attached(g, i)
  {
    if Attached(g, i) {
      var m: nat :| Reaches(g, i, m);
      RootAbove(g, i, m);
      CycleRounds(g, i, k, m + 1);
      assert (m + 1) * k >= m + 1 by {
        assert (m + 1) * k == (m + 1) + (m + 1) * (k - 1);
      }
      NoneAbove(g, i, m + 1, (m + 1) * k);
    }
  }

  predicate Avoids(g: seq<Up>, i: nat, k: nat, x: nat)
    requires Valid(g) && i < |g|
  {
    forall m: nat :: m < k ==> Above(g, i, m) != x
  }

  /** Up to the first visit of x, the old and the new graph agree. */
  lemma {:induction false} SameAbove(g: seq<Up>, x: nat, u: Up, i: nat, k: nat)
    requires Valid(g) && x < |g| && i < |g| && (u.Via? ==> u.to < |g|)
    requires Avoids(g[x := u], i, k, x)
    ensures Above(g[x := u], i, k) == Above(g, i, k)
    decreases k
  {
    var h := g[x := u];
    if k > 0 {
      assert Above(h, i, 0) == i;
      if g[i].Via? {
        forall m: nat | m < k - 1
          ensures Above(h, g[i].to, m) != x
        {
          assert Above(h, i, m + 1) == Above(h, g[i].to, m);
        }
        SameAbove(g, x, u, g[i].to, k - 1);
      }
    }
  }

  lemma {:induction false} AttachedBelow(g: seq<Up>, i: nat, m: nat)
    requires Valid(g) && i < |g| && Above(g, i, m) >= 0 && Attached(g, Above(g, i, m))
    ensures Attached(g, i)
    decreases m
  {
    if m > 0 {
      AttachedBelow(g, g[i].to, m - 1);
      var k: nat :| Reaches(g, g[i].to, k);
      assert Reaches(g, i, k + 1);
    }
  }

  /** Moving a node to a place that is attached without it makes no cycle. */
  lemma MoveAcyclic(g: seq<Up>, x: nat, u: Up)
    requires Valid(g) && x < |g| && (u.Via? ==> u.to < |g|)
    requires Acyclic(g) && Attached(g[x := u], x)
    ensures Acyclic(g[x := u])
  {
    var h := g[x := u];
    forall i, k: nat | 0 <= i < |h| && k > 0
      ensures Above(h, i, k) != i
    {
      if Above(h, i, k) == i {
        CycleNotAttached(h, i, k);
        forall m: nat | m < k
          ensures Above(h, i, m) != x
        {
          if Above(h, i, m) == x {
            AttachedBelow(h, i, m);
          }
        }
        SameAbove(g, x, u, i, k);
      }
    }
  }
}
