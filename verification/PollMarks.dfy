/**
 What a round of polling leaves behind: who was polled, who counts as online, and how often each
 id has been missed in a row (package/roamd/src/mesh_poll.c).
 */
module PollMarks {
  import opened MeshPoll

  /** Place i is the first one with this id. */
  predicate IsFirst(ns: seq<Node>, i: nat, id: string) {
    i < |ns| && ns[i].id == id && forall k :: 0 <= k < i ==> ns[k].id != id
  }

  predicate Absent(ns: seq<Node>, id: string) {
    forall k :: 0 <= k < |ns| ==> ns[k].id != id
  }

  /** A polled node after its outcome, where the round before left the nodes old ones. */
  ghost predicate Marked(olds: seq<Node>, n: Node, reported: bool) {
    && n.online == reported
    && (reported ==> n.misses == 0)
    && (!reported ==> Absent(olds, n.id) ==> n.misses == 1)
    && (!reported ==> forall i: nat :: IsFirst(olds, i, n.id) ==> n.misses == olds[i].misses + 1)
  }

  /** A node whose outcome is still open. */
  ghost predicate Carried(olds: seq<Node>, n: Node) {
    && !n.online
    && (Absent(olds, n.id) ==> n.misses == 0)
    && forall i: nat :: IsFirst(olds, i, n.id) ==> n.misses == olds[i].misses
  }

  /** The ids polled when the configured members are ms. */
  function Ids(ms: seq<Member>): seq<string> {
    if ms == [] then []
    else Ids(ms[..|ms| - 1]) + var m := ms[|ms| - 1]; if m.id != "" && m.addr != "" then [m.id] else []
  }

  /** The controller itself, then as many members as there is room for. */
  predicate Polls(ns: seq<Node>, ids: seq<string>) {
    && |ns| == 1 + (if |ids| < NODE_MAX then |ids| else NODE_MAX - 1)
    && ns[0].id == SELF && ns[0].online && ns[0].misses == 0
    && forall i :: 1 <= i < |ns| ==> ns[i].id == ids[i - 1]
  }

  ghost predicate Marks(olds: seq<Node>, ids: seq<string>, s: State) {
    && s.rounds != [] && Polls(s.nodes, ids)
    && var r := s.rounds[|s.rounds| - 1];
       && r.size + 1 == |s.nodes| && InRange(r)
       && (forall k :: 0 <= k < |r.outcomes| ==>
            Marked(olds, s.nodes[r.outcomes[k].node], r.outcomes[k].reported))
       && forall i :: 1 <= i < |s.nodes| && !HasOutcome(r.outcomes, i) ==> Carried(olds, s.nodes[i])
  }

  // ---------------------------------------------------------------- steps

  lemma {:induction false} MissesAre(id: string, olds: seq<Node>)
    ensures Absent(olds, id) ==> MissesOf(id, olds) == 0
    ensures forall i: nat :: IsFirst(olds, i, id) ==> MissesOf(id, olds) == olds[i].misses
  {
    if olds != [] && olds[0].id == id {
      assert forall i: nat :: IsFirst(olds, i, id) ==> i == 0;
    } else if olds != [] {
      MissesAre(id, olds[1..]);
      forall i: nat | IsFirst(olds, i, id)
        ensures MissesOf(id, olds) == olds[i].misses
      {
        assert forall k :: 0 <= k < i - 1 ==> olds[1..][k] == olds[k + 1];
        assert IsFirst(olds[1..], i - 1, id);
      }
    }
  }

  lemma HasAt(os: seq<Outcome>, k: nat)
    requires k < |os|
    ensures HasOutcome(os, os[k].node)
  {
  }

  lemma HasRecorded(os: seq<Outcome>, o: Outcome, i: nat)
    ensures HasOutcome(os + [o], i) <==> HasOutcome(os, i) || o.node == i
  {
    var q := os + [o];
    if HasOutcome(os, i) {
      var k :| 0 <= k < |os| && os[k].node == i;
      assert q[k].node == i;
    }
    assert q[|os|].node == o.node;
  }

  /** An outcome for a node that had none. */
  lemma OutcomeMarks(olds: seq<Node>, ids: seq<string>, s: State, i: nat, n: Node, ok: bool, t: State)
    requires Marks(olds, ids, s) && 1 <= i < |s.nodes|
    requires !HasOutcome(s.rounds[|s.rounds| - 1].outcomes, i)
    requires n.id == s.nodes[i].id && n.online == (ok || s.nodes[i].online)
    requires n.misses == if ok then 0 else s.nodes[i].misses + 1
    requires t.nodes == s.nodes[i := n] && t.rounds == Record(s.rounds, Outcome(i, ok))
    ensures Marks(olds, ids, t)
  {
    hide HasOutcome;
    var r, q := s.rounds[|s.rounds| - 1], t.rounds[|t.rounds| - 1];
    assert Carried(olds, s.nodes[i]);
    forall k | 0 <= k < |q.outcomes|
      ensures Marked(olds, t.nodes[q.outcomes[k].node], q.outcomes[k].reported)
    {
      if k < |r.outcomes| {
        HasAt(r.outcomes, k);
      }
    }
    forall j | 1 <= j < |t.nodes| && !HasOutcome(q.outcomes, j)
      ensures Carried(olds, t.nodes[j])
    {
      HasRecorded(r.outcomes, Outcome(i, ok), j);
    }
  }

  lemma AnsweredMarks(olds: seq<Node>, ids: seq<string>, s: State, i: nat, ok: bool)
    requires Marks(olds, ids, s) && 1 <= i < |s.nodes|
    requires !HasOutcome(s.rounds[|s.rounds| - 1].outcomes, i)
    ensures Marks(olds, ids, Reported(s, i, ok))
  {
    hide HasOutcome, Marked, Carried, Polls;
    var t := Answered(s, i, ok);
    OutcomeMarks(olds, ids, s, i, t.nodes[i], ok, t);
    FinishMarks(olds, ids, t);
  }

  lemma FinishMarks(olds: seq<Node>, ids: seq<string>, s: State)
    requires Marks(olds, ids, s)
    ensures Marks(olds, ids, Finish(s))
  {
    hide HasOutcome, Marked, Carried, Polls;
  }

  lemma {:induction false} MissAllMarks(olds: seq<Node>, ids: seq<string>, s: State, i: nat)
    requires Marks(olds, ids, s) && i >= 1
    requires forall j :: i <= j < |s.nodes| && !s.nodes[j].answered ==>
      !HasOutcome(s.rounds[|s.rounds| - 1].outcomes, j)
    ensures Marks(olds, ids, MissAll(s, i))
    decreases |s.nodes| - i
  {
    hide HasOutcome, Marked, Carried, Polls;
    if i < |s.nodes| {
      if s.nodes[i].answered {
        MissAllMarks(olds, ids, s, i + 1);
      } else {
        var t := Missed(s, i);
        OutcomeMarks(olds, ids, s, i, t.nodes[i], false, t);
        forall j | i + 1 <= j < |t.nodes| && !t.nodes[j].answered
          ensures !HasOutcome(t.rounds[|t.rounds| - 1].outcomes, j)
        {
          HasRecorded(s.rounds[|s.rounds| - 1].outcomes, Outcome(i, false), j);
        }
        MissAllMarks(olds, ids, t, i + 1);
      }
    }
  }

  /** Nodes that have not answered have no outcome yet. */
  lemma Unanswered(s: State, i: nat)
    requires Inv(s) && s.busy && 1 <= i < |s.nodes|
    ensures s.nodes[i].answered <==> HasOutcome(s.rounds[|s.rounds| - 1].outcomes, i)
  {
    assert Open(s.rounds[|s.rounds| - 1], s.nodes);
  }

  lemma RepliedMarks(olds: seq<Node>, ids: seq<string>, s: State, c: Call, ok: bool)
    requires Inv(s) && c in s.calls && Marks(olds, ids, s)
    ensures Marks(olds, ids, Replied(s, c, ok))
  {
    hide Marked, Carried, Polls, HasOutcome, Open, Reported;
    CallNode(s, c);
    if Live(s, c) {
      assert c in Current(s);
      Unanswered(s, c.node);
      AnsweredMarks(olds, ids, s.(calls := s.calls - {c}), c.node, ok);
    }
  }

  lemma ExpiredMarks(olds: seq<Node>, ids: seq<string>, s: State)
    requires Inv(s) && s.busy && Marks(olds, ids, s)
    ensures Marks(olds, ids, Expired(s))
  {
    hide Marked, Carried, Polls, HasOutcome, Open, Inv;
    var t := s.(gen := s.gen + 1);
    forall j | 1 <= j < |t.nodes| && !t.nodes[j].answered
      ensures !HasOutcome(t.rounds[|t.rounds| - 1].outcomes, j)
    {
      Unanswered(s, j);
    }
    MissAllMarks(olds, ids, t, 1);
    FinishMarks(olds, ids, MissAll(t, 1).(waiting := 1));
  }

  lemma EnlistedMarks(olds: seq<Node>, ids: seq<string>, s: State, m: Member)
    requires Marks(olds, ids, s) && |s.nodes| < NODE_MAX
    ensures var t := Enlisted(s, m, olds);
      Marks(olds, ids + [m.id], t) && !HasOutcome(t.rounds[|t.rounds| - 1].outcomes, |s.nodes|)
  {
    hide Marked;
    var t := Enlisted(s, m, olds);
    MissesAre(m.id, olds);
    assert Carried(olds, t.nodes[|s.nodes|]);
  }

  lemma AddedMarks(olds: seq<Node>, ids: seq<string>, s: State, m: Member)
    requires Marks(olds, ids, s)
    ensures Marks(olds, ids + (if m.id != "" && m.addr != "" then [m.id] else []), Added(s, m, olds))
  {
    hide Marked, Carried, HasOutcome, Reported;
    if m.id == "" || m.addr == "" {
      assert ids + [] == ids;
    } else if |s.nodes| < NODE_MAX {
      EnlistedMarks(olds, ids, s, m);
      if m.send == Failed {
        AnsweredMarks(olds, ids + [m.id], Enlisted(s, m, olds), |s.nodes|, false);
      }
    }
  }

  lemma {:induction false} AllMarks(s: State, ms: seq<Member>, olds: seq<Node>)
    requires Marks(olds, [], s)
    ensures Marks(olds, Ids(ms), AddedAll(s, ms, olds))
  {
    hide Marked, Carried, Polls, HasOutcome, Added;
    if ms == [] {
    } else {
      AllMarks(s, ms[..|ms| - 1], olds);
      AddedMarks(olds, Ids(ms[..|ms| - 1]), AddedAll(s, ms[..|ms| - 1], olds), ms[|ms| - 1]);
    }
  }

  lemma PolledMarks(s: State, ms: seq<Member>)
    requires ms != [] && !s.busy
    ensures Marks(s.nodes, Ids(ms), Polled(s, ms))
  {
    hide Marks, AddedAll;
    assert Marks(s.nodes, [], Began(s)) by { BeganMarks(s); }
    AllMarks(Began(s), ms, s.nodes);
    FinishMarks(s.nodes, Ids(ms), AddedAll(Began(s), ms, s.nodes));
  }

  lemma BeganMarks(s: State)
    ensures Marks(s.nodes, [], Began(s))
  {
  }

  /** While a round is under way only its own nodes and outcomes change. */
  lemma StepMarks(olds: seq<Node>, ids: seq<string>, s: State, e: Event)
    requires Inv(s) && Enabled(s, e) && s.busy && Marks(olds, ids, s)
    ensures Marks(olds, ids, Step(s, e))
  {
    hide Inv, Marks, Replied, Expired;
    match e
    case Run(_) =>
    case Reply(c, ok) => RepliedMarks(olds, ids, s, c, ok);
    case Resend(c, sent) =>
      RepliedMarks(olds, ids, s, c, false);
      ResentMarks(olds, ids, s, c, sent);
    case Watchdog => ExpiredMarks(olds, ids, s);
  }

  lemma ResentMarks(olds: seq<Node>, ids: seq<string>, s: State, c: Call, sent: bool)
    requires Marks(olds, ids, s) && Marks(olds, ids, Replied(s, c, false))
    ensures Marks(olds, ids, Resent(s, c, sent))
  {
    hide Marked, Carried, Polls, HasOutcome, Replied;
  }

  /** Between rounds nothing happens to the nodes until a round begins. */
  lemma IdleStep(s: State, e: Event)
    requires Inv(s) && Enabled(s, e) && !s.busy
    ensures var t := Step(s, e);
      if e.Run? && e.members != [] then |t.rounds| == |s.rounds| + 1
      else t.nodes == s.nodes && t.rounds == s.rounds && !t.busy
  {
    hide Past;
    match e
    case Run(ms) =>
      if ms != [] {
        RunInvSize(s, ms);
      }
    case Reply(c, _) => CallNode(s, c);
    case Resend(c, _) => CallNode(s, c);
    case Watchdog =>
  }

  lemma RunInvSize(s: State, ms: seq<Member>)
    requires ms != [] && !s.busy
    ensures |Polled(s, ms).rounds| == |s.rounds| + 1
  {
    hide Added;
    AllSize(Began(s), ms, s.nodes);
  }

  lemma {:induction false} AllSize(s: State, ms: seq<Member>, olds: seq<Node>)
    requires s.rounds != []
    ensures |AddedAll(s, ms, olds).rounds| == |s.rounds|
  {
    if ms != [] {
      AllSize(s, ms[..|ms| - 1], olds);
    }
  }

  lemma {:induction false} MissAllSize(s: State, i: nat)
    requires s.rounds != []
    ensures |MissAll(s, i).rounds| == |s.rounds|
    decreases |s.nodes| - i
  {
    if i < |s.nodes| {
      MissAllSize(if s.nodes[i].answered then s else Missed(s, i), i + 1);
    }
  }

  lemma BusyStep(s: State, e: Event)
    requires s.busy && s.rounds != []
    ensures |Step(s, e).rounds| == |s.rounds|
  {
    if e.Watchdog? {
      MissAllSize(s.(gen := s.gen + 1), 1);
    }
  }

  // ---------------------------------------------------------------- reports

  /** In the round under way, or the last one. */
  predicate Reports(s: State, n: nat) {
    s.rounds != [] && Outcome(n, true) in s.rounds[|s.rounds| - 1].outcomes
  }

  lemma {:induction false} MissAllReports(s: State, i: nat, n: nat)
    requires s.rounds != []
    ensures Reports(MissAll(s, i), n) == Reports(s, n)
    decreases |s.nodes| - i
  {
    if i < |s.nodes| {
      MissAllReports(if s.nodes[i].answered then s else Missed(s, i), i + 1, n);
    }
  }

  lemma AddedReports(s: State, m: Member, olds: seq<Node>, n: nat)
    requires s.rounds != []
    ensures Reports(Added(s, m, olds), n) == Reports(s, n)
  {
    hide MissesOf;
  }

  lemma {:induction false} AllReports(s: State, ms: seq<Member>, olds: seq<Node>, n: nat)
    requires s.rounds != []
    ensures Reports(AddedAll(s, ms, olds), n) == Reports(s, n)
  {
    hide Added, Reports;
    if ms != [] {
      AllReports(s, ms[..|ms| - 1], olds, n);
      AddedReports(AddedAll(s, ms[..|ms| - 1], olds), ms[|ms| - 1], olds, n);
    }
  }

  lemma PolledReports(s: State, ms: seq<Member>, n: nat)
    requires ms != [] && !s.busy
    ensures !Reports(Polled(s, ms), n)
  {
    hide AddedAll;
    AllReports(Began(s), ms, s.nodes, n);
  }

  /** A reply with a report, to a call of the current round, from the node n. */
  predicate Answers(s: State, e: Event, n: nat) {
    e.Reply? && e.ok && e.c.node == n && e.c.gen == s.gen
  }

  lemma RoundThere(s: State)
    requires Inv(s) && s.busy
    ensures s.rounds != []
  {
  }

  lemma StepReports(s: State, e: Event, n: nat)
    requires Inv(s) && Enabled(s, e) && s.busy
    ensures Reports(Step(s, e), n) <==> Reports(s, n) || Answers(s, e, n)
  {
    hide Inv, MissAll;
    RoundThere(s);
    match e
    case Run(_) =>
    case Reply(c, _) => CallNode(s, c);
    case Resend(c, _) => CallNode(s, c);
    case Watchdog => MissAllReports(s.(gen := s.gen + 1), 1, n);
  }

  // ---------------------------------------------------------------- runs

  /** Between the states i and j of a run exactly one round began, and it is over. */
  ghost predicate OneRound(ss: seq<State>, i: nat, j: nat) {
    && i < j < |ss| && !ss[i].busy && !ss[j].busy
    && |ss[j].rounds| == |ss[i].rounds| + 1
  }

  /** What the nodes of state i and the members of a run event have become at state j. */
  ghost predicate Between(ss: seq<State>, es: seq<Event>, i: nat, j: nat)
    requires i <= j < |ss| && |ss| == |es| + 1
  {
    && |ss[i].rounds| <= |ss[j].rounds|
    && (|ss[j].rounds| == |ss[i].rounds| ==> !ss[j].busy && ss[j].nodes == ss[i].nodes)
    && (|ss[j].rounds| == |ss[i].rounds| + 1 ==>
         exists k :: i <= k < j && es[k].Run? && Marks(ss[i].nodes, Ids(es[k].members), ss[j]))
  }

  lemma {:induction false} BetweenHolds(ss: seq<State>, es: seq<Event>, i: nat, j: nat)
    requires RunOf(ss, es) && i <= j < |ss| && !ss[i].busy
    ensures Between(ss, es, i, j)
    decreases j - i
  {
    hide Inv, Marks, Step;
    if i < j {
      BetweenHolds(ss, es, i, j - 1);
      var s, e := ss[j - 1], es[j - 1];
      assert Inv(s) by { EveryRun(ss[..j], es[..j - 1]); }
      assert Enabled(s, e) && ss[j] == Step(s, e);
      if s.busy {
        assert s.rounds != [];
        BusyStep(s, e);
        if |s.rounds| == |ss[i].rounds| + 1 {
          var k :| i <= k < j - 1 && es[k].Run? && Marks(ss[i].nodes, Ids(es[k].members), s);
          StepMarks(ss[i].nodes, Ids(es[k].members), s, e);
        }
      } else {
        IdleStep(s, e);
        if e.Run? && e.members != [] {
          PolledMarks(s, e.members);
          assert Step(s, e) == Polled(s, e.members) by { RunStep(s, e.members); }
        } else if |s.rounds| == |ss[i].rounds| + 1 {
          var k :| i <= k < j - 1 && es[k].Run? && Marks(ss[i].nodes, Ids(es[k].members), s);
          SameMarks(ss[i].nodes, Ids(es[k].members), s, ss[j]);
        }
      }
    }
  }

  /** In the last round before state j a report came exactly from the nodes that answered a call of that round. */
  lemma {:induction false} ReportsAreReplies(ss: seq<State>, es: seq<Event>, i: nat, j: nat, n: nat)
    requires RunOf(ss, es) && i <= j < |ss| && !ss[i].busy
    ensures |ss[j].rounds| == |ss[i].rounds| ==> forall k :: i <= k < j ==> !Answers(ss[k], es[k], n)
    ensures |ss[j].rounds| == |ss[i].rounds| + 1 ==>
      (Reports(ss[j], n) <==> exists k :: i <= k < j && Answers(ss[k], es[k], n))
    decreases j - i
  {
    hide Inv, Marks, Step, Reports, Answers;
    if i < j {
      ReportsAreReplies(ss, es, i, j - 1, n);
      BetweenHolds(ss, es, i, j - 1);
      var s, e := ss[j - 1], es[j - 1];
      assert Inv(s) by { EveryRun(ss[..j], es[..j - 1]); }
      assert Enabled(s, e) && ss[j] == Step(s, e);
      if s.busy {
        RoundThere(s);
        BusyStep(s, e);
        StepReports(s, e, n);
      } else {
        IdleStep(s, e);
        IdleAnswers(s, e, n);
      }
    }
  }

  lemma IdleAnswers(s: State, e: Event, n: nat)
    requires Inv(s) && Enabled(s, e) && !s.busy
    ensures !Answers(s, e, n)
    ensures if e.Run? && e.members != [] then !Reports(Step(s, e), n) else Reports(Step(s, e), n) == Reports(s, n)
  {
    hide Past, Polled;
    match e
    case Run(ms) =>
      if ms == [] {
        assert Polled(s, ms) == s by { EmptyRun(s); }
      } else {
        PolledReports(s, ms, n);
      }
    case Reply(c, _) => CallNode(s, c);
    case Resend(c, _) => CallNode(s, c);
    case Watchdog =>
  }

  lemma EmptyRun(s: State)
    ensures Polled(s, []) == s
  {
  }

  lemma RunStep(s: State, ms: seq<Member>)
    ensures Step(s, Run(ms)) == Polled(s, ms)
  {
  }

  lemma SameMarks(olds: seq<Node>, ids: seq<string>, s: State, t: State)
    requires Marks(olds, ids, s) && t.nodes == s.nodes && t.rounds == s.rounds
    ensures Marks(olds, ids, t)
  {
    hide Marked, Carried, Polls, HasOutcome;
  }

  /**
   In every run, when a round is over: the nodes are the controller and the configured members up to
   the limit, in order; each of these is online exactly when its outcome was a report; and it has
   then no misses, or one more than its id had when the round began, none if it was not there.
   */
  lemma WhatARoundLeaves(ss: seq<State>, es: seq<Event>, i: nat, j: nat) returns (k: nat)
    requires RunOf(ss, es) && OneRound(ss, i, j)
    ensures i <= k < j && es[k].Run? && Polls(ss[j].nodes, Ids(es[k].members))
    ensures ss[j].rounds != [] && var r := ss[j].rounds[|ss[j].rounds| - 1];
      && r.size + 1 == |ss[j].nodes| && Complete(r)
      && forall o :: o in r.outcomes ==> Marked(ss[i].nodes, ss[j].nodes[o.node], o.reported)
  {
    hide Inv, Marked, Polls;
    BetweenHolds(ss, es, i, j);
    EveryRun(ss[..j + 1], es[..j]);
    k :| i <= k < j && es[k].Run? && Marks(ss[i].nodes, Ids(es[k].members), ss[j]);
  }

  /** The id was polled in the round that has just ended, and this is what came of it. */
  ghost predicate Was(s: State, id: string, i: nat, reported: bool) {
    && IsFirst(s.nodes, i, id) && s.rounds != []
    && Outcome(i, reported) in s.rounds[|s.rounds| - 1].outcomes
  }

  ghost predicate Missing(s: State, id: string) {
    exists i :: Was(s, id, i, false)
  }

  /** The round that ends at state j reached the id. */
  ghost predicate Heard(ss: seq<State>, j: nat, id: string)
    requires j < |ss|
  {
    exists h: nat, i :: OneRound(ss, h, j) && Was(ss[j], id, i, true)
  }

  /** The ends of rounds one right after the other, the id missed in all but perhaps the first of them. */
  ghost predicate MissedRounds(ss: seq<State>, ends: seq<nat>, id: string) {
    && ends != [] && (forall k :: 0 <= k < |ends| ==> ends[k] < |ss|)
    && forall k :: 0 < k < |ends| ==> OneRound(ss, ends[k - 1], ends[k]) && Missing(ss[ends[k]], id)
  }

  /** One more round without the id. */
  lemma MissedAgain(ss: seq<State>, es: seq<Event>, h: nat, j: nat, id: string, i: nat)
    requires RunOf(ss, es) && OneRound(ss, h, j) && IsFirst(ss[j].nodes, i, id) && Missing(ss[j], id)
    ensures !ss[j].nodes[i].online
    ensures Absent(ss[h].nodes, id) ==> ss[j].nodes[i].misses == 1
    ensures forall a: nat :: IsFirst(ss[h].nodes, a, id) ==> ss[j].nodes[i].misses == ss[h].nodes[a].misses + 1
  {
    hide RunOf, Complete;
    var k := WhatARoundLeaves(ss, es, h, j);
    var a :| Was(ss[j], id, a, false);
    assert Marked(ss[h].nodes, ss[j].nodes[i], false);
  }

  lemma HeardOnce(ss: seq<State>, es: seq<Event>, j: nat, id: string, i: nat)
    requires RunOf(ss, es) && j < |ss| && Heard(ss, j, id) && IsFirst(ss[j].nodes, i, id)
    ensures ss[j].nodes[i].misses == 0 && ss[j].nodes[i].online
  {
    hide RunOf, Complete;
    var h: nat, a: nat :| OneRound(ss, h, j) && Was(ss[j], id, a, true);
    var k := WhatARoundLeaves(ss, es, h, j);
    assert Marked(ss[h].nodes, ss[j].nodes[i], true);
  }

  /** Missed n times in a row after a report, or after not being polled: n misses, and offline. */
  lemma {:induction false} MissedInARow(ss: seq<State>, es: seq<Event>, ends: seq<nat>, id: string, i: nat)
    requires RunOf(ss, es) && MissedRounds(ss, ends, id) && |ends| > 1
    requires Absent(ss[ends[0]].nodes, id) || Heard(ss, ends[0], id)
    requires IsFirst(ss[ends[|ends| - 1]].nodes, i, id)
    ensures ss[ends[|ends| - 1]].nodes[i].misses == |ends| - 1 && !ss[ends[|ends| - 1]].nodes[i].online
    decreases |ends|
  {
    hide RunOf, Marked, Heard, OneRound;
    var n := |ends|;
    var s := ss[ends[n - 2]];
    MissedAgain(ss, es, ends[n - 2], ends[n - 1], id, i);
    if n > 2 {
      assert Missing(s, id);
      var a: nat :| Was(s, id, a, false);
      MissedInARow(ss, es, ends[..n - 1], id, a);
    } else if Heard(ss, ends[0], id) {
      var a := HeardPlace(ss, ends[0], id);
      HeardOnce(ss, es, ends[0], id, a);
    }
  }

  lemma HeardPlace(ss: seq<State>, j: nat, id: string) returns (i: nat)
    requires j < |ss| && Heard(ss, j, id)
    ensures IsFirst(ss[j].nodes, i, id)
  {
    var h: nat, a: nat :| OneRound(ss, h, j) && Was(ss[j], id, a, true);
    i := a;
  }

  /** A round of one member that is asked, after rounds rs that left the nodes olds. */
  function Asking(id: string, misses: nat, gen: nat, calls: set<Call>, rs: seq<Round>): State {
    State([Node(SELF, 0, true, false), Node(id, misses, false, false)], 1, gen, true, true,
          calls + {Call(gen, 1, Report)}, rs + [Round(1, [], 0)])
  }

  lemma AskOne(s: State, id: string, addr: string)
    requires id != "" && addr != "" && !s.busy
    ensures Step(s, Run([Member(id, addr, Asked)])) ==
      Asking(id, MissesOf(id, s.nodes), s.gen, s.calls, s.rounds)
  {
    hide MissesOf;
    assert AddedAll(Began(s), [], s.nodes) == Began(s);
    assert [Member(id, addr, Asked)][..0] == [];
  }

  lemma MissOne(id: string, misses: nat, gen: nat, calls: set<Call>, rs: seq<Round>)
    ensures var s := Asking(id, misses, gen, calls, rs);
      Step(s, Watchdog) == State([Node(SELF, 0, true, false), Node(id, misses + 1, false, false)], 0, gen + 1,
        false, false, s.calls, rs + [Round(1, [Outcome(1, false)], 1)])
  {
    var t := Asking(id, misses, gen + 1, calls, rs).(calls := calls + {Call(gen, 1, Report)});
    assert MissAll(t, 1) == MissAll(Missed(t, 1), 2) == Missed(t, 1);
    assert Missed(t, 1).nodes == [t.nodes[0], t.nodes[1].(misses := misses + 1)];
    assert [] + [Outcome(1, false)] == [Outcome(1, false)];
    assert Missed(t, 1).rounds == rs + [Round(1, [Outcome(1, false)], 0)];
    assert Steer(Missed(t, 1).rounds) == rs + [Round(1, [Outcome(1, false)], 1)];
  }

  lemma AnswerOne(id: string, misses: nat, gen: nat, calls: set<Call>, rs: seq<Round>)
    ensures var s := Asking(id, misses, gen, calls, rs);
      Step(s, Reply(Call(gen, 1, Report), true)) == State([Node(SELF, 0, true, false), Node(id, 0, true, true)], 0, gen,
        false, false, calls - {Call(gen, 1, Report)}, rs + [Round(1, [Outcome(1, true)], 1)])
  {
    var s := Asking(id, misses, gen, calls, rs);
    var t := Answered(s.(calls := s.calls - {Call(gen, 1, Report)}), 1, true);
    assert t.nodes == [s.nodes[0], Node(id, 0, true, true)];
    assert [] + [Outcome(1, true)] == [Outcome(1, true)];
    assert t.rounds == rs + [Round(1, [Outcome(1, true)], 0)];
    assert Steer(t.rounds) == rs + [Round(1, [Outcome(1, true)], 1)];
  }

  /** A run: a member that does not answer in time, and in the next round its two answers, the late one first. */
  lemma LateThenInTime(id: string, addr: string) returns (ss: seq<State>, es: seq<Event>)
    requires id != "" && id != SELF && addr != ""
    ensures RunOf(ss, es) && |es| == 5 && OneRound(ss, 0, 2) && OneRound(ss, 2, 5)
    ensures ss[2].nodes == ss[4].nodes == [Node(SELF, 0, true, false), Node(id, 1, false, false)] && ss[4].busy
    ensures ss[5].nodes == [Node(SELF, 0, true, false), Node(id, 0, true, true)]
  {
    hide Step, MissesOf;
    var run, late, call := Run([Member(id, addr, Asked)]), Call(0, 1, Report), Call(1, 1, Report);
    AskOne(INIT, id, addr);
    MissesAre(id, []);
    var s1 := Asking(id, 0, 0, {}, []);
    MissOne(id, 0, 0, {}, []);
    var s2 := Step(s1, Watchdog);
    AskOne(s2, id, addr);
    MissesAre(id, s2.nodes);
    assert IsFirst(s2.nodes, 1, id);
    var s3 := Asking(id, 1, 1, {late}, s2.rounds);
    var s4 := s3.(calls := {call});
    assert Step(s3, Reply(late, true)) == s4 by { TooLate(s3, late); }
    assert s4 == Asking(id, 1, 1, {}, s2.rounds);
    AnswerOne(id, 1, 1, {}, s2.rounds);
    es := [run, Watchdog, run, Reply(late, true), Reply(call, true)];
    ss := [INIT, s1, s2, s3, s4, Step(s4, Reply(call, true))];
  }

  lemma TooLate(s: State, c: Call)
    requires c.gen != s.gen
    ensures Step(s, Reply(c, true)) == s.(calls := s.calls - {c})
  {
  }
}
