/**
 The controller's log when several nodes report in turns and it logs events of its own in between:
 of every node it holds each shown event once, in the node's order, whatever the other nodes do.
 */
module Interleaving {
  import opened MeshLog
  import opened Replication

  /** The controller logs an event of its own, or a node reports at a time when its log holds size events. */
  datatype Turn = Local | From(node: nat, size: nat, now: nat)

  /** The reports of one node, by the sizes of its log. */
  function Sizes(turns: seq<Turn>, n: nat): seq<nat> {
    if turns == [] then []
    else
      var k := |turns| - 1;
      Sizes(turns[..k], n) + if turns[k].From? && turns[k].node == n then [turns[k].size] else []
  }

  /** One turn, as Log.Push and Log.Ingest leave the history and the source's keys. */
  ghost predicate Served(logs: seq<seq<Entry>>, ids: seq<string>, t: Turn, was: seq<Event>, history: seq<Event>,
                         keys: seq<seq<Key>>, next: seq<seq<Key>>)
    requires |ids| == |logs| == |keys|
  {
    match t
    case Local => next == keys && |history| == |was| + 1 && was <= history && history[|was|].origin == ""
    case From(n, size, now) =>
      && n < |logs| && size <= |logs[n]|
      && var m := Merge(keys[n], Batch(Report(logs[n], size)));
         next == keys[n := m.keys] && exists name :: Ingested(was, history, m.pushed, ids[n], name, now)
  }

  /** A run of the controller: histories and keys before and after each turn. */
  ghost predicate Serves(logs: seq<seq<Entry>>, ids: seq<string>, turns: seq<Turn>,
                         hs: seq<seq<Event>>, ks: seq<seq<seq<Key>>>)
  {
    && |ids| == |logs| && |hs| == |ks| == |turns| + 1 && hs[0] == [] && ks[0] == seq(|logs|, _ => [])
    && (forall k :: 0 <= k < |ks| ==> |ks[k]| == |logs|)
    && forall k :: 0 <= k < |turns| ==> Served(logs, ids, turns[k], hs[k], hs[k + 1], ks[k], ks[k + 1])
  }

  /** Ids tell the nodes apart, and from the controller's own events. */
  predicate Distinct(ids: seq<string>) {
    && (forall i :: 0 <= i < |ids| ==> ids[i] != "")
    && forall i, j :: 0 <= i < j < |ids| ==> ids[i] != ids[j]
  }

  /** The events of one origin. */
  function Of(history: seq<Event>, id: string): seq<Event> {
    if history == [] then []
    else
      var k := |history| - 1;
      Of(history[..k], id) + if history[k].origin == id then [history[k]] else []
  }

  lemma {:induction false} OfConcat(a: seq<Event>, b: seq<Event>, id: string)
    ensures Of(a + b, id) == Of(a, id) + Of(b, id)
  {
    if b == [] {
      assert a + b == a;
    } else {
      var k := |b| - 1;
      OfConcat(a, b[..k], id);
      assert (a + b)[..|a| + k] == a + b[..k];
    }
  }

  lemma {:induction false} OfAll(b: seq<Event>, id: string)
    ensures (forall i :: 0 <= i < |b| ==> b[i].origin == id) ==> Of(b, id) == b
    ensures (forall i :: 0 <= i < |b| ==> b[i].origin != id) ==> Of(b, id) == []
  {
    if b != [] {
      OfAll(b[..|b| - 1], id);
    }
  }

  /** The event tells what the entry told, and names its node and number there. */
  predicate Tells(ev: Event, e: Entry, id: string) {
    && e.Entry? && ev.origin == id && ev.originSeq == e.seqno && ev.body == e.body
    && (e.ts != 0 ==> ev.ts == e.ts)
  }

  ghost predicate TellsAll(evs: seq<Event>, es: seq<Entry>, id: string) {
    |evs| == |es| && forall i :: 0 <= i < |evs| ==> Tells(evs[i], es[i], id)
  }

  /** What a turn adds to the events of one node. */
  lemma TurnAdds(logs: seq<seq<Entry>>, ids: seq<string>, t: Turn, was: seq<Event>, history: seq<Event>,
                 keys: seq<seq<Key>>, next: seq<seq<Key>>, n: nat)
    requires |ids| == |logs| == |keys| && Distinct(ids) && n < |ids|
    requires Served(logs, ids, t, was, history, keys, next)
    ensures if t.From? && t.node == n then
              var m := Merge(keys[n], Batch(Report(logs[n], t.size)));
              && next[n] == m.keys && |Of(history, ids[n])| == |Of(was, ids[n])| + |m.pushed|
              && Of(was, ids[n]) <= Of(history, ids[n])
              && TellsAll(Of(history, ids[n])[|Of(was, ids[n])|..], m.pushed, ids[n])
            else
              |next| == |keys| && next[n] == keys[n] && Of(history, ids[n]) == Of(was, ids[n])
  {
    hide Merge, Batch, Report, Of;
    var added := history[|was|..];
    assert history == was + added;
    OfConcat(was, added, ids[n]);
    OfAll(added, ids[n]);
    if t.From? {
      var m := Merge(keys[t.node], Batch(Report(logs[t.node], t.size)));
      var name :| Ingested(was, history, m.pushed, ids[t.node], name, t.now);
      forall k | 0 <= k < |added|
        ensures added[k].origin == ids[t.node] && Tells(added[k], m.pushed[k], ids[t.node])
      {
        assert Carries(history[|was| + k], m.pushed[k], ids[t.node], name, t.now);
      }
      if t.node == n {
        assert Of(history, ids[n])[|Of(was, ids[n])|..] == added;
      }
    }
  }

  lemma {:induction false} EachRun(logs: seq<seq<Entry>>, ids: seq<string>, turns: seq<Turn>,
                                   hs: seq<seq<Event>>, ks: seq<seq<seq<Key>>>, n: nat, k: nat)
    requires Serves(logs, ids, turns, hs, ks) && Distinct(ids) && n < |ids| && k <= |turns|
    requires Growing(Sizes(turns[..k], n), |logs[n]|)
    ensures var r := Run(logs[n], Sizes(turns[..k], n));
            ks[k][n] == r.keys && TellsAll(Of(hs[k], ids[n]), r.pushed, ids[n])
    decreases k
  {
    hide Merge, Batch, Report, Of, Served, Distinct, TellsAll, Run, Sizes, Growing;
    var id, log := ids[n], logs[n];
    if k == 0 {
      Empty(id);
      assert turns[..0] == [];
      NoReports(log, n);
    } else {
      var t, before := turns[k - 1], Sizes(turns[..k - 1], n);
      assert turns[..k] == turns[..k - 1] + [t];
      SizesPush(turns[..k - 1], t, n);
      if t.From? && t.node == n {
        RunPush(log, before, t.size);
      }
      EachRun(logs, ids, turns, hs, ks, n, k - 1);
      ServedAt(logs, ids, turns, hs, ks, k - 1);
      TurnAdds(logs, ids, t, hs[k - 1], hs[k], ks[k - 1], ks[k], n);
      if t.From? && t.node == n {
        var p := Run(log, before);
        assert p.keys == ks[k - 1][n];
        TellsMore(Of(hs[k - 1], id), Of(hs[k], id), p.pushed, Merge(p.keys, Batch(Report(log, t.size))).pushed, id);
      }
    }
  }

  lemma ServedAt(logs: seq<seq<Entry>>, ids: seq<string>, turns: seq<Turn>,
                 hs: seq<seq<Event>>, ks: seq<seq<seq<Key>>>, k: nat)
    requires Serves(logs, ids, turns, hs, ks) && k < |turns|
    ensures |ks[k]| == |ks[k + 1]| == |logs| && Served(logs, ids, turns[k], hs[k], hs[k + 1], ks[k], ks[k + 1])
  {
  }

  lemma NoReports(log: seq<Entry>, n: nat)
    ensures Sizes([], n) == [] && Growing([], |log|) && Run(log, []) == Merged([], [])
  {
  }

  lemma SizesPush(turns: seq<Turn>, t: Turn, n: nat)
    ensures Sizes(turns + [t], n) ==
            if t.From? && t.node == n then Sizes(turns, n) + [t.size] else Sizes(turns, n)
  {
    assert (turns + [t])[..|turns|] == turns;
  }

  /** One more report of a growing log. */
  lemma RunPush(log: seq<Entry>, before: seq<nat>, size: nat)
    requires Growing(before + [size], |log|)
    ensures Growing(before, |log|) && size <= |log|
    ensures var p := Run(log, before);
            var m := Merge(p.keys, Batch(Report(log, size)));
            Run(log, before + [size]) == Merged(m.keys, p.pushed + m.pushed)
  {
    hide Merge, Batch, Report;
    var ns := before + [size];
    assert ns[..|before|] == before && ns[|before|] == size;
    assert forall i :: 0 <= i < |before| ==> before[i] == ns[i];
  }

  lemma Empty(id: string)
    ensures TellsAll(Of([], id), [], id)
  {
  }

  lemma TellsMore(was: seq<Event>, now: seq<Event>, a: seq<Entry>, b: seq<Entry>, id: string)
    requires was <= now && TellsAll(was, a, id) && TellsAll(now[|was|..], b, id)
    ensures TellsAll(now, a + b, id)
  {
    hide Tells;
    assert now == was + now[|was|..];
  }

  /**
   Exactly once, for every node at the same time: after any run of reports of several nodes and of
   the controller's own events, its history holds of each node, in that node's order, exactly the
   events that some report of it showed, each once.
   */
  lemma ExactlyOnceEach(logs: seq<seq<Entry>>, ids: seq<string>, turns: seq<Turn>,
                        hs: seq<seq<Event>>, ks: seq<seq<seq<Key>>>, n: nat)
    requires Serves(logs, ids, turns, hs, ks) && Distinct(ids) && n < |ids|
    requires NodeLog(logs[n]) && Growing(Sizes(turns, n), |logs[n]|)
    ensures var shown := Shown(Sizes(turns, n));
      && (forall i :: 0 <= i < |shown| ==> shown[i] < |logs[n]|)
      && TellsAll(Of(hs[|turns|], ids[n]), Pick(logs[n], shown), ids[n])
  {
    hide TellsAll, Of, Served, Distinct, Run, Shown, Growing;
    assert turns[..|turns|] == turns;
    EachRun(logs, ids, turns, hs, ks, n, |turns|);
    ExactlyOnce(logs[n], Sizes(turns, n));
  }
}
