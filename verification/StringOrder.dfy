/** The order strcmp gives strings, and sorting by it. */
module StringOrder {
  /** strcmp: by the first character that differs, a prefix first. */
  predicate StrLe(a: string, b: string) {
    a == "" || (b != "" && (a[0] < b[0] || (a[0] == b[0] && StrLe(a[1..], b[1..]))))
  }

  lemma {:induction false} StrTotal(a: string, b: string)
    ensures StrLe(a, b) || StrLe(b, a)
  {
    if a != "" && b != "" {
      StrTotal(a[1..], b[1..]);
    }
  }

  lemma {:induction false} StrAntisym(a: string, b: string)
    requires StrLe(a, b) && StrLe(b, a)
    ensures a == b
  {
    if a != "" && b != "" {
      StrAntisym(a[1..], b[1..]);
      assert a == [a[0]] + a[1..] && b == [b[0]] + b[1..];
    }
  }

  lemma {:induction false} StrTrans(a: string, b: string, c: string)
    requires StrLe(a, b) && StrLe(b, c)
    ensures StrLe(a, c)
  {
    if a != "" && a[0] == b[0] && b[0] == c[0] {
      StrTrans(a[1..], b[1..], c[1..]);
    }
  }

  ghost predicate Sorted(s: seq<string>) {
    forall i, j :: 0 <= i < j < |s| ==> StrLe(s[i], s[j])
  }

  function Insert(x: string, s: seq<string>): seq<string> {
    if s == [] then [x]
    else if StrLe(s[|s| - 1], x) then s + [x]
    else Insert(x, s[..|s| - 1]) + [s[|s| - 1]]
  }

  function Sort(s: seq<string>): seq<string> {
    if s == [] then [] else Insert(s[|s| - 1], Sort(s[..|s| - 1]))
  }

  lemma {:induction false} InsertKeeps(x: string, s: seq<string>)
    requires Sorted(s)
    ensures Sorted(Insert(x, s)) && multiset(Insert(x, s)) == multiset(s) + multiset{x}
    decreases |s|
  {
    hide StrLe;
    if s != [] {
      var n := |s| - 1;
      assert s == s[..n] + [s[n]];
      if StrLe(s[n], x) {
        forall i | 0 <= i < |s|
          ensures StrLe(s[i], x)
        {
          if i < n {
            StrTrans(s[i], s[n], x);
          }
        }
      } else {
        InsertKeeps(x, s[..n]);
        StrTotal(s[n], x);
        var t := Insert(x, s[..n]);
        forall i | 0 <= i < |t|
          ensures StrLe(t[i], s[n])
        {
          assert t[i] in multiset(t);
          assert t[i] == x || t[i] in s[..n];
        }
      }
    }
  }

  lemma {:induction false} SortKeeps(s: seq<string>)
    ensures Sorted(Sort(s)) && multiset(Sort(s)) == multiset(s)
    decreases |s|
  {
    hide Insert;
    if s != [] {
      var n := |s| - 1;
      SortKeeps(s[..n]);
      InsertKeeps(s[n], Sort(s[..n]));
      assert s == s[..n] + [s[n]];
    }
  }

  lemma LastGreatest(s: seq<string>, x: string)
    requires Sorted(s) && x in multiset(s)
    ensures s != [] && (x == s[|s| - 1] || StrLe(x, s[|s| - 1]))
  {
    hide StrLe;
    var i :| 0 <= i < |s| && s[i] == x;
  }

  /** Only one order of the same entries is sorted, whatever algorithm qsort uses. */
  lemma {:induction false} SortedUnique(s: seq<string>, t: seq<string>)
    requires Sorted(s) && Sorted(t) && multiset(s) == multiset(t)
    ensures s == t
    decreases |s|
  {
    hide StrLe;
    assert |s| == |multiset(s)| == |multiset(t)| == |t|;
    if s != [] {
      var n := |s| - 1;
      hide Sorted;
      LastGreatest(s, t[n]);
      LastGreatest(t, s[n]);
      if s[n] != t[n] {
        StrAntisym(s[n], t[n]);
      }
      DropLast(s);
      DropLast(t);
      SortedUnique(s[..n], t[..n]);
    }
  }

  lemma DropLast(s: seq<string>)
    requires s != [] && Sorted(s)
    ensures Sorted(s[..|s| - 1]) && s == s[..|s| - 1] + [s[|s| - 1]]
    ensures multiset(s[..|s| - 1]) == multiset(s) - multiset{s[|s| - 1]}
  {
    hide StrLe;
    assert s == s[..|s| - 1] + [s[|s| - 1]];
  }
}
