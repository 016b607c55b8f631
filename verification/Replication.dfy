/**
 Exactly-once replication: what a run of reports from one node leaves in the controller's log,
 although the ring of seen keys holds only the last REPORT_EVENTS of them.
 */
module Replication {
  import opened MeshLog

  /** A node's own log: complete events, no two with the same key. */
  ghost predicate NodeLog(log: seq<Entry>) {
    && (forall i :: 0 <= i < |log| ==> log[i].Entry?)
    && forall i, j :: 0 <= i < j < |log| ==> KeyOf(log[i]) != KeyOf(log[j])
  }

  /** The log only grows between reports. */
  ghost predicate Growing(ns: seq<nat>, size: nat) {
    && (forall i :: 0 <= i < |ns| ==> ns[i] <= size)
    && forall i, j :: 0 <= i < j < |ns| ==> ns[i] <= ns[j]
  }

  /** The first event of the report made when the log holds n events. */
  function Start(n: nat): nat {
    if n <= REPORT_EVENTS then 0 else n - REPORT_EVENTS
  }

  /** The report itself, newest event first. */
  function Report(log: seq<Entry>, n: nat): seq<Entry>
    requires n <= |log|
  {
    Reverse(LastN(log[..n], REPORT_EVENTS))
  }

  /** The controller after ingesting the reports made at log sizes ns, in order. */
  ghost function Run(log: seq<Entry>, ns: seq<nat>): Merged
    requires Growing(ns, |log|)
    decreases |ns|
  {
    if ns == [] then Merged([], []) else
    var k := |ns| - 1;
    var p := Run(log, ns[..k]);
    var m := Merge(p.keys, Batch(Report(log, ns[k])));
    Merged(m.keys, p.pushed + m.pushed)
  }

  function Last(ns: seq<nat>): nat {
    if ns == [] then 0 else ns[|ns| - 1]
  }

  function Range(a: nat, b: nat): (r: seq<nat>)
    ensures a <= b ==> |r| == b - a
  {
    if a <= b then seq(b - a, i => a + i) else []
  }

  function Max(a: nat, b: nat): nat {
    if a < b then b else a
  }

  /** The events that some report showed, by their place in the node's log. */
  function Shown(ns: seq<nat>): seq<nat>
    decreases |ns|
  {
    if ns == [] then [] else
    var k := |ns| - 1;
    Shown(ns[..k]) + Range(Max(Last(ns[..k]), Start(ns[k])), ns[k])
  }

  /** Shown lists exactly the events of the reports, each once, in the node's order. */
  lemma {:induction false} ShownIs(ns: seq<nat>, size: nat)
    requires Growing(ns, size)
    ensures forall i, j :: 0 <= i < j < |Shown(ns)| ==> Shown(ns)[i] < Shown(ns)[j]
    ensures forall i :: 0 <= i < |Shown(ns)| ==> Shown(ns)[i] < Last(ns)
    ensures forall e: nat :: e in Shown(ns) <==> InReport(ns, e)
    decreases |ns|
  {
    if ns != [] {
      var k := |ns| - 1;
      var s, r := Shown(ns[..k]), Range(Max(Last(ns[..k]), Start(ns[k])), ns[k]);
      ShownIs(ns[..k], size);
      forall e: nat
        ensures e in s + r <==> InReport(ns, e)
      {
        ShownStep(ns, size, e);
      }
    }
  }

  ghost predicate InReport(ns: seq<nat>, e: nat) {
    exists k :: 0 <= k < |ns| && Start(ns[k]) <= e < ns[k]
  }

  /** A report shows again what the one before showed, or something after it. */
  lemma ShownStep(ns: seq<nat>, size: nat, e: nat)
    requires Growing(ns, size) && ns != []
    ensures var k := |ns| - 1;
      InReport(ns, e) <==> InReport(ns[..k], e) || e in Range(Max(Last(ns[..k]), Start(ns[k])), ns[k])
  {
    var k := |ns| - 1;
    var a := Max(Last(ns[..k]), Start(ns[k]));
    var r := Range(a, ns[k]);
    if InReport(ns[..k], e) {
      var j :| 0 <= j < k && Start(ns[..k][j]) <= e < ns[..k][j];
      assert Start(ns[j]) <= e < ns[j];
    }
    if InReport(ns, e) {
      var j :| 0 <= j < |ns| && Start(ns[j]) <= e < ns[j];
      if e < Last(ns[..k]) {
        var h := if j < k then j else k - 1;
        assert Start(ns[..k][h]) <= e < ns[..k][h];
      } else {
        assert r[e - a] == e;
      }
    }
    if e in r {
      assert Start(ns[k]) <= e < ns[k];
    }
  }

  ghost function Pick(log: seq<Entry>, at: seq<nat>): (p: seq<Entry>)
    requires NodeLog(log) && forall i :: 0 <= i < |at| ==> at[i] < |log|
    ensures |p| == |at| && forall i :: 0 <= i < |p| ==> p[i] == log[at[i]] && p[i].Entry?
  {
    seq(|at|, i requires 0 <= i < |at| => log[at[i]])
  }

  function KeysOf(es: seq<Entry>): (k: seq<Key>)
    requires forall i :: 0 <= i < |es| ==> es[i].Entry?
    ensures |k| == |es|
  {
    seq(|es|, i requires 0 <= i < |es| => KeyOf(es[i]))
  }

  /** Entries seen lately change nothing. */
  lemma {:induction false} MergeSkip(keys: seq<Key>, es: seq<Entry>, k: nat)
    requires k <= |es|
    requires forall i :: 0 <= i < k ==> es[i].Entry? && KeyOf(es[i]) in keys
    ensures Merge(keys, es) == Merge(keys, es[k..])
    decreases k
  {
    if k == 0 {
      assert es[0..] == es;
    } else {
      MergeSkip(keys, es[1..], k - 1);
      assert es[1..][k - 1..] == es[k..];
    }
  }

  /** Entries never seen are all pushed, and the newest keys are kept. */
  lemma {:induction false} MergeAdd(keys: seq<Key>, es: seq<Entry>)
    requires NodeLog(es)
    requires forall i :: 0 <= i < |es| ==> KeyOf(es[i]) !in keys
    requires |keys| <= REPORT_EVENTS
    ensures Merge(keys, es) == Merged(LastN(keys + KeysOf(es), REPORT_EVENTS), es)
    decreases |es|
  {
    if es == [] {
      assert keys + KeysOf(es) == keys;
    } else {
      var k := KeyOf(es[0]);
      MergeAdd(LastN(keys + [k], REPORT_EVENTS), es[1..]);
      assert KeysOf(es) == [k] + KeysOf(es[1..]);
      assert keys + ([k] + KeysOf(es[1..])) == (keys + [k]) + KeysOf(es[1..]);
      LastNConcat(keys + [k], KeysOf(es[1..]), REPORT_EVENTS);
      assert es == [es[0]] + es[1..];
    }
  }

  lemma LastNConcat<T>(a: seq<T>, b: seq<T>, n: nat)
    ensures LastN(LastN(a, n) + b, n) == LastN(a + b, n)
  {
  }

  /** A report read oldest first is the newest part of the log in its own order. */
  lemma BatchReport(log: seq<Entry>, n: nat)
    requires n <= |log|
    ensures Batch(Report(log, n)) == log[Start(n)..n]
  {
    hide Reverse;
    var w := log[Start(n)..n];
    assert LastN(log[..n], REPORT_EVENTS) == w;
    assert Reverse(w)[..|w|] == Reverse(w);
    assert Reverse(Reverse(w)) == w;
  }

  /** The part of the log already pushed and still in the newest report. */
  ghost predicate Recent(shown: seq<nat>, n: nat) {
    n - Start(n) <= |shown| && shown[|shown| - (n - Start(n))..] == Range(Start(n), n)
  }

  lemma RecentExtend(s: seq<nat>, m: nat, n: nat)
    requires Recent(s, m) && m <= n
    ensures Recent(s + Range(Max(m, Start(n)), n), n)
  {
    var r := Range(Max(m, Start(n)), n);
    var all, w := s + r, n - Start(n);
    var u := s[|s| - (m - Start(m))..];
    var t, want := all[|all| - w..], Range(Start(n), n);
    forall i | 0 <= i < w
      ensures t[i] == want[i]
    {
      if Start(n) + i < m {
        assert t[i] == u[Start(n) + i - Start(m)];
      }
    }
    assert t == want;
  }

  lemma {:induction false} ShownRecent(ns: seq<nat>, size: nat)
    requires Growing(ns, size)
    ensures Recent(Shown(ns), Last(ns))
    decreases |ns|
  {
    hide Recent, Range, Start;
    if ns == [] {
      RecentEmpty();
    } else {
      var k := |ns| - 1;
      ShownRecent(ns[..k], size);
      RecentExtend(Shown(ns[..k]), Last(ns[..k]), ns[k]);
    }
  }

  lemma RecentEmpty()
    ensures Recent([], 0)
  {
  }

  /**
   Exactly once: after any run of reports, the controller's log holds, in the node's order, the
   events that some report showed, and no event twice.
   */
  lemma {:induction false} ExactlyOnce(log: seq<Entry>, ns: seq<nat>)
    requires NodeLog(log) && Growing(ns, |log|)
    ensures forall i :: 0 <= i < |Shown(ns)| ==> Shown(ns)[i] < |log|
    ensures Run(log, ns).pushed == Pick(log, Shown(ns))
    ensures Run(log, ns).keys == LastN(KeysOf(Pick(log, Shown(ns))), REPORT_EVENTS)
    decreases |ns|
  {
    hide Pick, KeysOf, LastN, Range, Start, Max, Merge, Batch, Report, Recent;
    ShownIs(ns, |log|);
    if ns == [] {
      NothingYet(log);
    } else {
      var k := |ns| - 1;
      var m, shown := Last(ns[..k]), Shown(ns[..k]);
      ExactlyOnce(log, ns[..k]);
      ShownIs(ns[..k], |log|);
      ShownRecent(ns[..k], |log|);
      OneReport(log, shown, Run(log, ns[..k]).keys, m, ns[k]);
    }
  }

  lemma NothingYet(log: seq<Entry>)
    requires NodeLog(log)
    ensures Pick(log, []) == [] && KeysOf([]) == [] && LastN<Key>([], REPORT_EVENTS) == []
  {
  }

  lemma PickConcat(log: seq<Entry>, s: seq<nat>, c: nat, n: nat)
    requires NodeLog(log) && c <= n <= |log| && forall i :: 0 <= i < |s| ==> s[i] < |log|
    ensures forall i :: 0 <= i < |s + Range(c, n)| ==> (s + Range(c, n))[i] < |log|
    ensures Pick(log, s + Range(c, n)) == Pick(log, s) + log[c..n]
  {
    var t := s + Range(c, n);
    assert forall i :: 0 <= i < |t| ==> t[i] == if i < |s| then s[i] else c + (i - |s|);
  }

  lemma KeysConcat(a: seq<Entry>, b: seq<Entry>)
    requires forall i :: 0 <= i < |a + b| ==> (a + b)[i].Entry?
    ensures forall i :: 0 <= i < |a| ==> a[i].Entry?
    ensures forall i :: 0 <= i < |b| ==> b[i].Entry?
    ensures KeysOf(a + b) == KeysOf(a) + KeysOf(b)
  {
    assert forall i :: 0 <= i < |a| ==> (a + b)[i] == a[i];
    assert forall i :: 0 <= i < |b| ==> (a + b)[|a| + i] == b[i];
  }

  lemma SubLog(log: seq<Entry>, a: nat, b: nat)
    requires NodeLog(log) && a <= b <= |log|
    ensures NodeLog(log[a..b])
  {
    var w := log[a..b];
    assert forall i :: 0 <= i < |w| ==> w[i] == log[a + i];
  }

  /** One more report, made when the log has grown from m to n events: only the events after m are new. */
  lemma MergeReport(log: seq<Entry>, shown: seq<nat>, keys: seq<Key>, m: nat, n: nat)
    requires NodeLog(log) && m <= n <= |log|
    requires Recent(shown, m) && forall i :: 0 <= i < |shown| ==> shown[i] < m
    requires keys == LastN(KeysOf(Pick(log, shown)), REPORT_EVENTS)
    ensures var fresher := log[Max(m, Start(n))..n];
      (SubLog(log, Max(m, Start(n)), n); Merge(keys, Batch(Report(log, n)))
        == Merged(LastN(keys + KeysOf(fresher), REPORT_EVENTS), fresher))
  {
    hide Merge, Batch, Report, Pick, KeysOf, Range, Recent, KeyOf;
    var a, c := Start(n), Max(m, Start(n));
    var w, fresher := log[a..n], log[c..n];
    BatchReport(log, n);
    SubLog(log, a, n);
    SubLog(log, c, n);
    hide NodeLog;
    forall i | 0 <= i < c - a
      ensures w[i].Entry? && KeyOf(w[i]) in keys
    {
      assert w[i] == log[a + i];
      Remembered(log, shown, keys, m, a + i);
    }
    MergeSkip(keys, w, c - a);
    assert w[c - a..] == fresher;
    forall i | 0 <= i < |fresher|
      ensures fresher[i].Entry? && KeyOf(fresher[i]) !in keys
    {
      assert fresher[i] == log[c + i];
      NotSeen(log, shown, keys, m, c + i);
    }
    MergeAdd(keys, fresher);
  }

  lemma OneReport(log: seq<Entry>, shown: seq<nat>, keys: seq<Key>, m: nat, n: nat)
    requires NodeLog(log) && m <= n <= |log|
    requires Recent(shown, m) && forall i :: 0 <= i < |shown| ==> shown[i] < m
    requires keys == LastN(KeysOf(Pick(log, shown)), REPORT_EVENTS)
    ensures var all := shown + Range(Max(m, Start(n)), n);
      var r := Merge(keys, Batch(Report(log, n)));
      && (forall i :: 0 <= i < |all| ==> all[i] < |log|)
      && Pick(log, shown) + r.pushed == Pick(log, all)
      && r.keys == LastN(KeysOf(Pick(log, all)), REPORT_EVENTS)
  {
    hide Merge, Batch, Report, KeysOf, Range, Recent, LastN;
    var c := Max(m, Start(n));
    MergeReport(log, shown, keys, m, n);
    PickConcat(log, shown, c, n);
    KeysConcat(Pick(log, shown), log[c..n]);
    LastNConcat(KeysOf(Pick(log, shown)), KeysOf(log[c..n]), REPORT_EVENTS);
  }

  /** The ring still holds the key of every event of the previous report. */
  lemma Remembered(log: seq<Entry>, shown: seq<nat>, keys: seq<Key>, m: nat, e: nat)
    requires NodeLog(log) && Start(m) <= e < m <= |log|
    requires Recent(shown, m) && forall i :: 0 <= i < |shown| ==> shown[i] < m
    requires keys == LastN(KeysOf(Pick(log, shown)), REPORT_EVENTS)
    ensures log[e].Entry? && KeyOf(log[e]) in keys
  {
    var j := |shown| - (m - Start(m)) + (e - Start(m));
    assert shown[j] == shown[|shown| - (m - Start(m))..][e - Start(m)] == e;
    assert KeysOf(Pick(log, shown))[j] == KeyOf(log[e]);
    assert keys[j - (|shown| - |keys|)] == KeyOf(log[e]);
  }

  lemma NotSeen(log: seq<Entry>, shown: seq<nat>, keys: seq<Key>, m: nat, e: nat)
    requires NodeLog(log) && m <= e < |log|
    requires forall i :: 0 <= i < |shown| ==> shown[i] < m
    requires keys == LastN(KeysOf(Pick(log, shown)), REPORT_EVENTS)
    ensures log[e].Entry? && KeyOf(log[e]) !in keys
  {
    forall i | 0 <= i < |keys|
      ensures keys[i] != KeyOf(log[e])
    {
      var j := i + (|shown| - |keys|);
      assert keys[i] == KeysOf(Pick(log, shown))[j] == KeyOf(log[shown[j]]);
    }
  }

  /** How a node writes its events into a report. */
  function Entries(h: seq<Event>): (es: seq<Entry>)
    ensures |es| == |h|
  {
    seq(|h|, i requires 0 <= i < |h| => Entry(h[i].seqno, h[i].ts, h[i].body))
  }

  /** The log a node keeps is fit for replication, and what it dumps is the report above. */
  lemma NodeReports(h: seq<Event>)
    requires |h| < SEQ_MOD && forall i :: 0 <= i < |h| ==> h[i].seqno == (i + 1) % SEQ_MOD
    ensures NodeLog(Entries(h))
    ensures Entries(Reverse(LastN(h, REPORT_EVENTS))) == Report(Entries(h), |h|)
  {
    hide Reverse;
    var es := Entries(h);
    forall i, j | 0 <= i < j < |es|
      ensures KeyOf(es[i]) != KeyOf(es[j])
    {
      assert h[i].seqno == i + 1 && h[j].seqno == j + 1;
    }
    assert es[..|h|] == es;
    var a, b := Entries(Reverse(LastN(h, REPORT_EVENTS))), Report(es, |h|);
    assert |a| == |b| && forall i :: 0 <= i < |a| ==> a[i] == b[i];
  }
}
