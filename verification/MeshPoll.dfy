/**
 Polling rounds of package/roamd/src/mesh_poll.c as a state machine. The environment decides when
 calls are answered, which sends fail at once and when the watchdog fires; replies may arrive
 after their round was given up.
 */
module MeshPoll {
  const NODE_MAX: nat := 17
  const SELF: string := "controller"

  datatype Node = Node(id: string, misses: nat, online: bool, answered: bool)

  datatype Kind = Apply | Report

  /** A call in flight: the round's generation and the node's index. */
  datatype Call = Call(gen: nat, node: nat, kind: Kind)

  datatype Outcome = Outcome(node: nat, reported: bool)

  /** What has happened in one round: the members polled, their outcomes, the calls of steer_round. */
  datatype Round = Round(size: nat, outcomes: seq<Outcome>, steers: nat)

  datatype State = State(nodes: seq<Node>, waiting: int, gen: nat, busy: bool, armed: bool,
                         calls: set<Call>, rounds: seq<Round>)

  /** A configured member, and what becomes of the sends to it. */
  datatype Send = Applied | Asked | Failed
  datatype Member = Member(id: string, addr: string, send: Send)

  datatype Event = Run(members: seq<Member>) | Reply(c: Call, ok: bool) | Resend(c: Call, sent: bool) | Watchdog

  // ---------------------------------------------------------------- steps

  function Record(rs: seq<Round>, o: Outcome): seq<Round>
    requires rs != []
  {
    var r := rs[|rs| - 1];
    rs[|rs| - 1 := r.(outcomes := r.outcomes + [o])]
  }

  function Steer(rs: seq<Round>): seq<Round>
    requires rs != []
  {
    var r := rs[|rs| - 1];
    rs[|rs| - 1 := r.(steers := r.steers + 1)]
  }

  function Grow(rs: seq<Round>): seq<Round>
    requires rs != []
  {
    var r := rs[|rs| - 1];
    rs[|rs| - 1 := r.(size := r.size + 1)]
  }

  function Finish(s: State): State
    requires s.rounds != []
  {
    if s.waiting - 1 != 0 then s.(waiting := s.waiting - 1)
    else s.(waiting := 0, armed := false, busy := false, rounds := Steer(s.rounds))
  }

  function Missed(s: State, i: nat): State
    requires i < |s.nodes| && s.rounds != []
  {
    s.(nodes := s.nodes[i := s.nodes[i].(misses := s.nodes[i].misses + 1)],
       rounds := Record(s.rounds, Outcome(i, false)))
  }

  function Answered(s: State, i: nat, ok: bool): (t: State)
    requires i < |s.nodes| && s.rounds != []
    ensures t.rounds != []
  {
    var t := s.(nodes := s.nodes[i := s.nodes[i].(answered := true)]);
    if !ok then Missed(t, i)
    else t.(nodes := t.nodes[i := t.nodes[i].(misses := 0, online := true)],
            rounds := Record(t.rounds, Outcome(i, true)))
  }

  function Reported(s: State, i: nat, ok: bool): State
    requires i < |s.nodes| && s.rounds != []
  {
    Finish(Answered(s, i, ok))
  }

  /** The call's generation is the current one; the rest is there to make the steps total and always holds. */
  predicate Live(s: State, c: Call) {
    c.gen == s.gen && c.node < |s.nodes| && s.rounds != []
  }

  function Replied(s: State, c: Call, ok: bool): State {
    var t := s.(calls := s.calls - {c});
    if Live(s, c) then Reported(t, c.node, ok) else t
  }

  function Resent(s: State, c: Call, sent: bool): State {
    if !Live(s, c) then s.(calls := s.calls - {c})
    else if sent then s.(calls := s.calls - {c} + {c.(kind := Report)})
    else Replied(s, c, false)
  }

  function MissAll(s: State, i: nat): (t: State)
    requires s.rounds != []
    ensures |t.nodes| == |s.nodes| && t.rounds != []
    decreases |s.nodes| - i
  {
    if i >= |s.nodes| then s
    else MissAll(if s.nodes[i].answered then s else Missed(s, i), i + 1)
  }

  function Expired(s: State): State {
    if s.rounds == [] then s else Finish(MissAll(s.(gen := s.gen + 1), 1).(waiting := 1))
  }

  /** How often the member with this id has been missed, from the round before. */
  function MissesOf(id: string, prev: seq<Node>): nat {
    if prev == [] then 0 else if prev[0].id == id then prev[0].misses else MissesOf(id, prev[1..])
  }

  function Enlisted(s: State, m: Member, prev: seq<Node>): (t: State)
    requires s.rounds != []
    ensures t.rounds != [] && |t.nodes| == |s.nodes| + 1 && t.gen == s.gen
  {
    s.(nodes := s.nodes + [Node(m.id, MissesOf(m.id, prev), false, false)],
       waiting := s.waiting + 1, rounds := Grow(s.rounds))
  }

  function Added(s: State, m: Member, prev: seq<Node>): (t: State)
    requires s.rounds != []
    ensures t.rounds != []
  {
    if |s.nodes| >= NODE_MAX || m.id == "" || m.addr == "" then s else
    var i := |s.nodes|;
    var t := Enlisted(s, m, prev);
    match m.send
    case Applied => t.(calls := t.calls + {Call(t.gen, i, Apply)})
    case Asked => t.(calls := t.calls + {Call(t.gen, i, Report)})
    case Failed => Reported(t, i, false)
  }

  function AddedAll(s: State, ms: seq<Member>, prev: seq<Node>): (t: State)
    requires s.rounds != []
    ensures t.rounds != []
  {
    if ms == [] then s else Added(AddedAll(s, ms[..|ms| - 1], prev), ms[|ms| - 1], prev)
  }

  function Began(s: State): State {
    s.(nodes := [Node(SELF, 0, true, false)], waiting := 1, busy := true, armed := true,
       rounds := s.rounds + [Round(0, [], 0)])
  }

  function Polled(s: State, ms: seq<Member>): State {
    if ms == [] || s.busy then s else Finish(AddedAll(Began(s), ms, s.nodes))
  }

  predicate Enabled(s: State, e: Event) {
    match e
    case Run(_) => true
    case Reply(c, _) => c in s.calls && c.kind == Report
    case Resend(c, _) => c in s.calls && c.kind == Apply
    case Watchdog => s.armed
  }

  // ---------------------------------------------------------------- invariant

  predicate Distinct(os: seq<Outcome>) {
    forall j, k :: 0 <= j < k < |os| ==> os[j].node != os[k].node
  }

  predicate HasOutcome(os: seq<Outcome>, i: nat) {
    exists k :: 0 <= k < |os| && os[k].node == i
  }

  predicate InRange(r: Round) {
    forall k :: 0 <= k < |r.outcomes| ==> 1 <= r.outcomes[k].node <= r.size
  }

  /** Every polled member has exactly one outcome, and steer_round ran exactly once. */
  predicate Complete(r: Round) {
    r.steers == 1 && InRange(r) && Distinct(r.outcomes)
    && forall i: nat :: 1 <= i <= r.size ==> HasOutcome(r.outcomes, i)
  }

  /** A round under way: exactly the nodes marked as answered have an outcome. */
  predicate Open(r: Round, nodes: seq<Node>) {
    && r.steers == 0 && r.size + 1 == |nodes| && InRange(r) && Distinct(r.outcomes)
    && forall i :: 1 <= i < |nodes| ==> (nodes[i].answered <==> HasOutcome(r.outcomes, i))
  }

  function Pending(nodes: seq<Node>): set<nat> {
    set i: nat | 1 <= i < |nodes| && !nodes[i].answered
  }

  function Current(s: State): set<Call> {
    set c | c in s.calls && c.gen == s.gen
  }

  /** One current call for each node of p. */
  ghost predicate Matched(s: State, p: set<nat>) {
    && (forall c :: c in Current(s) ==> c.node in p)
    && (forall c, d :: c in Current(s) && d in Current(s) && c.node == d.node ==> c == d)
    && forall i :: i in p ==> exists c :: c in Current(s) && c.node == i
  }

  /** token is 1 while mesh_poll_run is still adding members. */
  ghost predicate Busy(s: State, token: nat) {
    && s.busy && s.armed && s.rounds != [] && s.nodes != []
    && Open(s.rounds[|s.rounds| - 1], s.nodes)
    && Matched(s, Pending(s.nodes))
    && s.waiting == |Pending(s.nodes)| + token
  }

  ghost predicate Past(s: State, upto: nat) {
    upto <= |s.rounds| && forall k :: 0 <= k < upto ==> Complete(s.rounds[k])
  }

  ghost predicate NoFuture(s: State) {
    forall c :: c in s.calls ==> c.gen <= s.gen
  }

  /** What holds between any two events. */
  ghost predicate Inv(s: State) {
    && NoFuture(s)
    && if s.busy then Busy(s, 0) && s.waiting > 0 && Past(s, |s.rounds| - 1)
       else !s.armed && s.waiting == 0 && Current(s) == {} && Past(s, |s.rounds|)
  }

  function Step(s: State, e: Event): State {
    match e
    case Run(ms) => Polled(s, ms)
    case Reply(c, ok) => Replied(s, c, ok)
    case Resend(c, sent) => Resent(s, c, sent)
    case Watchdog => Expired(s)
  }

  /** A call of the current generation belongs to a round under way. */
  lemma CallNode(s: State, c: Call)
    requires Inv(s) && c in s.calls
    ensures Live(s, c) <==> c.gen == s.gen
    ensures Live(s, c) ==> s.busy && 1 <= c.node
  {
    if c.gen == s.gen {
      assert c in Current(s);
    }
  }

  // ---------------------------------------------------------------- proofs

  /** Only the round under way is written to. */
  predicate SamePast(s: State, t: State) {
    && |t.rounds| == |s.rounds| && s.rounds != []
    && t.rounds[..|s.rounds| - 1] == s.rounds[..|s.rounds| - 1]
  }

  /** An outcome for a node that has none yet. */
  lemma RecordOne(r: Round, o: Outcome)
    requires InRange(r) && Distinct(r.outcomes) && 1 <= o.node <= r.size && !HasOutcome(r.outcomes, o.node)
    ensures var q := r.(outcomes := r.outcomes + [o]);
      InRange(q) && Distinct(q.outcomes) &&
      forall i :: HasOutcome(q.outcomes, i) <==> HasOutcome(r.outcomes, i) || i == o.node
  {
    var os := r.outcomes + [o];
    forall i
      ensures HasOutcome(os, i) <==> HasOutcome(r.outcomes, i) || i == o.node
    {
      if HasOutcome(r.outcomes, i) {
        var k :| 0 <= k < |r.outcomes| && r.outcomes[k].node == i;
        assert os[k].node == i;
      }
      assert os[|r.outcomes|].node == o.node;
    }
  }

  lemma AnsweredOpen(s: State, i: nat, ok: bool)
    requires s.rounds != [] && Open(s.rounds[|s.rounds| - 1], s.nodes) && i in Pending(s.nodes)
    ensures var t := Answered(s, i, ok);
      && SamePast(s, t) && Open(t.rounds[|t.rounds| - 1], t.nodes)
      && Pending(t.nodes) == Pending(s.nodes) - {i}
      && t == s.(nodes := t.nodes, rounds := t.rounds)
  {
    RecordOne(s.rounds[|s.rounds| - 1], Outcome(i, ok));
  }

  /** Where poll_finish leaves the round: still open, or complete with steer_round run. */
  ghost predicate Settled(s: State, t: State, token: nat) {
    && SamePast(s, t) && t.calls == s.calls && t.gen == s.gen
    && if t.busy then Busy(t, token) && t.waiting > 0
       else !t.armed && t.waiting == 0 && Current(t) == {} && Complete(t.rounds[|t.rounds| - 1])
  }

  lemma FinishOpen(u: State, token: nat)
    requires u.busy && u.armed && u.rounds != [] && u.nodes != []
    requires Open(u.rounds[|u.rounds| - 1], u.nodes) && Matched(u, Pending(u.nodes))
    requires u.waiting == |Pending(u.nodes)| + token + 1
    ensures Settled(u, Finish(u), token) && (token > 0 ==> Finish(u).busy)
  {
    hide Open;
    var t := Finish(u);
    assert Current(t) == Current(u);
    if u.waiting == 1 {
      OpenComplete(u.rounds[|u.rounds| - 1], u.nodes);
    }
  }

  lemma OpenComplete(r: Round, nodes: seq<Node>)
    requires Open(r, nodes) && Pending(nodes) == {}
    ensures Complete(r.(steers := r.steers + 1))
  {
    forall i: nat | 1 <= i <= r.size
      ensures nodes[i].answered
    {
      assert nodes[i].answered || i in Pending(nodes);
    }
  }

  /** A node that has not answered, and whose call is gone, gets its outcome. */
  lemma ReportOne(s: State, i: nat, ok: bool, token: nat)
    requires s.busy && s.armed && s.rounds != [] && i in Pending(s.nodes)
    requires Open(s.rounds[|s.rounds| - 1], s.nodes)
    requires Matched(s, Pending(s.nodes) - {i}) && s.waiting == |Pending(s.nodes)| + token
    ensures Settled(s, Reported(s, i, ok), token)
    ensures token > 0 ==> Reported(s, i, ok).busy
  {
    AnsweredOpen(s, i, ok);
    var u := Answered(s, i, ok);
    assert Current(u) == Current(s);
    FinishOpen(u, token);
  }

  /** A reply of the current generation is its node's outcome; an older one changes nothing else. */
  lemma ReplyInv(s: State, c: Call, ok: bool)
    requires Inv(s) && c in s.calls
    ensures Inv(Replied(s, c, ok))
  {
    CallNode(s, c);
    var t := s.(calls := s.calls - {c});
    if c.gen == s.gen {
      assert c in Current(s);
      assert Current(t) == Current(s) - {c};
      forall i | i in Pending(s.nodes) - {c.node}
        ensures exists d :: d in Current(t) && d.node == i
      {
        var d :| d in Current(s) && d.node == i;
        assert d in Current(t);
      }
      ReportOne(t, c.node, ok, 0);
      var u := Reported(t, c.node, ok);
      KeepPast(s, u);
    } else {
      assert Current(t) == Current(s);
    }
  }

  lemma KeepPast(s: State, t: State)
    requires SamePast(s, t) && Past(s, |s.rounds| - 1)
    ensures Past(t, |t.rounds| - 1)
    ensures Complete(t.rounds[|t.rounds| - 1]) ==> Past(t, |t.rounds|)
  {
    forall k | 0 <= k < |t.rounds| - 1
      ensures Complete(t.rounds[k])
    {
      assert t.rounds[k] == t.rounds[..|s.rounds| - 1][k] == s.rounds[k];
    }
  }

  lemma ResendInv(s: State, c: Call, sent: bool)
    requires Inv(s) && c in s.calls && c.kind == Apply
    ensures Inv(Resent(s, c, sent))
  {
    CallNode(s, c);
    if c.gen != s.gen || !sent {
      ReplyInv(s, c, false);
    } else {
      var d := c.(kind := Report);
      var t := s.(calls := s.calls - {c} + {d});
      assert c in Current(s);
      assert Current(t) == Current(s) - {c} + {d};
      forall i | i in Pending(s.nodes)
        ensures exists e :: e in Current(t) && e.node == i
      {
        var e :| e in Current(s) && e.node == i;
        assert e in Current(t) || d.node == i;
      }
    }
  }

  /** Nodes below i that had not answered have been given their outcome by the watchdog. */
  ghost predicate Swept(s: State, i: nat) {
    && s.rounds != [] && s.nodes != []
    && var r := s.rounds[|s.rounds| - 1];
       && r.steers == 0 && r.size + 1 == |s.nodes| && InRange(r) && Distinct(r.outcomes)
       && forall j :: 1 <= j < |s.nodes| ==>
            (s.nodes[j].answered || j < i <==> HasOutcome(r.outcomes, j))
  }

  lemma {:induction false} MissAllSwept(s: State, i: nat)
    requires Swept(s, i) && i >= 1
    ensures var t := MissAll(s, i);
      && Swept(t, |t.nodes|) && SamePast(s, t)
      && t == s.(nodes := t.nodes, rounds := t.rounds)
    decreases |s.nodes| - i
  {
    if i < |s.nodes| {
      if s.nodes[i].answered {
        MissAllSwept(s, i + 1);
      } else {
        RecordOne(s.rounds[|s.rounds| - 1], Outcome(i, false));
        var u := Missed(s, i);
        assert forall j :: 1 <= j < |u.nodes| ==> u.nodes[j].answered == s.nodes[j].answered;
        MissAllSwept(u, i + 1);
      }
    }
  }

  lemma WatchdogInv(s: State)
    requires Inv(s) && s.armed
    ensures Inv(Expired(s)) && !Expired(s).busy
  {
    var t := s.(gen := s.gen + 1);
    MissAllSwept(t, 1);
    var u := Expired(s);
    assert Current(u) == {};
    var m := MissAll(t, 1);
    var r := m.rounds[|m.rounds| - 1];
    assert forall i: nat :: 1 <= i <= r.size ==> HasOutcome(r.outcomes, i);
    KeepPast(s, u);
  }

  lemma CallAdded(t: State, p: set<nat>, c: Call)
    requires Matched(t, p) && c.gen == t.gen && c.node !in p
    ensures Matched(t.(calls := t.calls + {c}), p + {c.node})
  {
    var u := t.(calls := t.calls + {c});
    assert Current(u) == Current(t) + {c};
    forall j | j in p + {c.node}
      ensures exists d :: d in Current(u) && d.node == j
    {
      if j == c.node {
        assert c in Current(u);
      } else {
        var d :| d in Current(t) && d.node == j;
        assert d in Current(u);
      }
    }
  }

  lemma EnlistInv(s: State, m: Member, prev: seq<Node>)
    requires Busy(s, 1)
    ensures var t := Enlisted(s, m, prev);
      && Open(t.rounds[|t.rounds| - 1], t.nodes) && SamePast(s, t)
      && |s.nodes| !in Pending(s.nodes) && Pending(t.nodes) == Pending(s.nodes) + {|s.nodes|}
      && Matched(t, Pending(s.nodes)) && t.waiting == |Pending(t.nodes)| + 1
  {
    var t := Enlisted(s, m, prev);
    assert Pending(t.nodes) == Pending(s.nodes) + {|s.nodes|};
    assert Current(t) == Current(s);
    GrowOpen(s, t);
  }

  /** A member whose send failed has been missed at once. */
  lemma AddFailed(s: State, m: Member, prev: seq<Node>)
    requires Busy(s, 1) && NoFuture(s)
    ensures var t := Reported(Enlisted(s, m, prev), |s.nodes|, false);
      Busy(t, 1) && NoFuture(t) && SamePast(s, t) && t.gen == s.gen
  {
    hide Open, Pending, Current, Matched, Answered, Finish;
    EnlistInv(s, m, prev);
    var t := Enlisted(s, m, prev);
    assert Pending(t.nodes) - {|s.nodes|} == Pending(s.nodes);
    ReportOne(t, |s.nodes|, false, 1);
  }

  /** A member whose send went out has its call in flight. */
  lemma AddSent(s: State, m: Member, prev: seq<Node>, kind: Kind)
    requires Busy(s, 1) && NoFuture(s)
    ensures var e := Enlisted(s, m, prev);
      var t := e.(calls := e.calls + {Call(e.gen, |s.nodes|, kind)});
      Busy(t, 1) && NoFuture(t) && SamePast(s, t) && t.gen == s.gen
  {
    hide Open, Pending, Current, Matched;
    EnlistInv(s, m, prev);
    CallAdded(Enlisted(s, m, prev), Pending(s.nodes), Call(s.gen, |s.nodes|, kind));
  }

  lemma AddInv(s: State, m: Member, prev: seq<Node>)
    requires Busy(s, 1) && NoFuture(s)
    ensures var t := Added(s, m, prev);
      Busy(t, 1) && NoFuture(t) && SamePast(s, t) && t.gen == s.gen
  {
    hide Busy, NoFuture, SamePast, Enlisted, Reported;
    AddInvSkip(s);
    if !(|s.nodes| >= NODE_MAX || m.id == "" || m.addr == "") {
      match m.send {
        case Applied => AddSent(s, m, prev, Apply);
        case Asked => AddSent(s, m, prev, Report);
        case Failed => AddFailed(s, m, prev);
      }
    }
  }

  lemma AddInvSkip(s: State)
    requires Busy(s, 1)
    ensures SamePast(s, s) && s.rounds != []
  {
  }

  lemma GrowOpen(s: State, t: State)
    requires s.rounds != [] && Open(s.rounds[|s.rounds| - 1], s.nodes) && s.nodes != []
    requires |t.nodes| == |s.nodes| + 1 && t.nodes[..|s.nodes|] == s.nodes && !t.nodes[|s.nodes|].answered
    requires t.rounds == Grow(s.rounds)
    ensures Open(t.rounds[|t.rounds| - 1], t.nodes)
  {
    var r := s.rounds[|s.rounds| - 1];
    assert !HasOutcome(r.outcomes, |s.nodes|);
    assert forall j :: 0 <= j < |s.nodes| ==> t.nodes[j] == s.nodes[j];
  }

  lemma {:induction false} AddAllInv(s: State, ms: seq<Member>, prev: seq<Node>)
    requires Busy(s, 1) && NoFuture(s)
    ensures var t := AddedAll(s, ms, prev);
      Busy(t, 1) && NoFuture(t) && SamePast(s, t) && t.gen == s.gen
  {
    if ms != [] {
      AddAllInv(s, ms[..|ms| - 1], prev);
      AddInv(AddedAll(s, ms[..|ms| - 1], prev), ms[|ms| - 1], prev);
    }
  }

  lemma RunInv(s: State, ms: seq<Member>)
    requires Inv(s)
    ensures Inv(Polled(s, ms))
  {
    if ms != [] && !s.busy {
      var b := Began(s);
      assert Pending(b.nodes) == {};
      assert Current(b) == Current(s);
      assert Past(b, |b.rounds| - 1);
      AddAllInv(b, ms, s.nodes);
      var t := AddedAll(b, ms, s.nodes);
      FinishOpen(t, 0);
      KeepPast(b, t);
      KeepPast(t, Finish(t));
    }
  }

  /** Every event keeps the invariant. */
  lemma StepInv(s: State, e: Event)
    requires Inv(s) && Enabled(s, e)
    ensures Inv(Step(s, e))
  {
    match e
    case Run(ms) => RunInv(s, ms);
    case Reply(c, ok) => ReplyInv(s, c, ok);
    case Resend(c, sent) => ResendInv(s, c, sent);
    case Watchdog => WatchdogInv(s);
  }

  // ---------------------------------------------------------------- runs

  const INIT: State := State([], 0, 0, false, false, {}, [])

  /** ss are the states a run of the events es goes through. */
  ghost predicate RunOf(ss: seq<State>, es: seq<Event>) {
    && |ss| == |es| + 1 && ss[0] == INIT
    && forall k :: 0 <= k < |es| ==> Enabled(ss[k], es[k]) && ss[k + 1] == Step(ss[k], es[k])
  }

  lemma {:induction false} SetSizes(cs: set<Call>, p: set<nat>)
    requires forall c :: c in cs ==> c.node in p
    requires forall c, d :: c in cs && d in cs && c.node == d.node ==> c == d
    requires forall i :: i in p ==> exists c :: c in cs && c.node == i
    ensures |cs| == |p|
  {
    if cs == {} {
      assert forall i :: i !in p;
      assert p == {};
    } else {
      var c :| c in cs;
      forall i | i in p - {c.node}
        ensures exists d :: d in cs - {c} && d.node == i
      {
        var d :| d in cs && d.node == i;
        assert d in cs - {c};
      }
      SetSizes(cs - {c}, p - {c.node});
    }
  }

  /**
   Whatever the order of replies, failed sends and watchdogs: between events a round under way
   waits for exactly its own calls in flight, no call of the current generation outlives its round,
   and every finished round gave each polled member one outcome and steered once.
   */
  lemma {:induction false} EveryRun(ss: seq<State>, es: seq<Event>)
    requires RunOf(ss, es)
    ensures var s := ss[|ss| - 1];
      && Inv(s)
      && (s.busy ==> s.waiting == |Current(s)| > 0 && Enabled(s, Watchdog))
      && (!s.busy ==> Current(s) == {})
      && forall k :: 0 <= k < |s.rounds| - (if s.busy then 1 else 0) ==> Complete(s.rounds[k])
    decreases |es|
  {
    var n := |es|;
    if n > 0 {
      EveryRun(ss[..n], es[..n - 1]);
      StepInv(ss[n - 1], es[n - 1]);
    }
    var s := ss[n];
    if s.busy {
      SetSizes(Current(s), Pending(s.nodes));
    }
  }

  /** A reply or a failed send that comes after its round was given up changes nothing but the calls in flight. */
  lemma LateReplyIsIgnored(ss: seq<State>, es: seq<Event>, c: Call, ok: bool)
    requires RunOf(ss, es) && c in ss[|es|].calls && c.gen != ss[|es|].gen
    ensures Replied(ss[|es|], c, ok) == ss[|es|].(calls := ss[|es|].calls - {c})
    ensures Resent(ss[|es|], c, ok) == ss[|es|].(calls := ss[|es|].calls - {c})
    ensures c.gen < ss[|es|].gen
  {
    EveryRun(ss, es);
  }

  predicate OnlyOne(os: seq<Outcome>, k: nat)
    requires k < |os|
  {
    forall j :: 0 <= j < |os| && os[j].node == os[k].node ==> j == k
  }

  /** A complete round has one outcome per polled member, no more. */
  lemma OneOutcomeEach(r: Round, i: nat)
    requires Complete(r) && 1 <= i <= r.size
    ensures exists k :: 0 <= k < |r.outcomes| && r.outcomes[k].node == i && OnlyOne(r.outcomes, k)
  {
    assert HasOutcome(r.outcomes, i);
    var k :| 0 <= k < |r.outcomes| && r.outcomes[k].node == i;
    assert OnlyOne(r.outcomes, k);
  }

  // ---------------------------------------------------------------- the code

  class Poll {
    var nodes: seq<Node>
    var waiting: int
    var gen: nat
    var busy: bool
    var armed: bool
    ghost var calls: set<Call>
    ghost var rounds: seq<Round>

    ghost function Now(): State
      reads this
    {
      State(nodes, waiting, gen, busy, armed, calls, rounds)
    }

    constructor ()
      ensures Now() == INIT
    {
      nodes, waiting, gen, busy, armed := [], 0, 0, false, false;
      calls, rounds := {}, [];
    }

    method PollFinish()
      requires rounds != []
      modifies this
      ensures Now() == Finish(old(Now()))
    {
      waiting := waiting - 1;
      if waiting != 0 {
        return;
      }
      armed := false;
      rounds := Steer(rounds);
      busy := false;
    }

    method NodeMissed(i: nat)
      requires i < |nodes| && rounds != []
      modifies this
      ensures Now() == Missed(old(Now()), i)
    {
      nodes := nodes[i := nodes[i].(misses := nodes[i].misses + 1)];
      rounds := Record(rounds, Outcome(i, false));
    }

    method NodeReport(i: nat, ok: bool)
      requires i < |nodes| && rounds != []
      modifies this
      ensures Now() == Reported(old(Now()), i, ok)
    {
      nodes := nodes[i := nodes[i].(answered := true)];
      if !ok {
        NodeMissed(i);
        PollFinish();
        return;
      }
      nodes := nodes[i := nodes[i].(misses := 0)];
      nodes := nodes[i := nodes[i].(online := true)];
      rounds := Record(rounds, Outcome(i, true));
      PollFinish();
    }

    method ReportCb(c: Call, ok: bool)
      requires Inv(Now()) && c in calls
      modifies this
      ensures Now() == Replied(old(Now()), c, ok) && Inv(Now())
    {
      CallNode(Now(), c);
      ReplyInv(Now(), c, ok);
      calls := calls - {c};
      if c.gen == gen {
        NodeReport(c.node, ok);
      }
    }

    method ApplyCb(c: Call, sent: bool)
      requires Inv(Now()) && c in calls && c.kind == Apply
      modifies this
      ensures Now() == Resent(old(Now()), c, sent) && Inv(Now())
    {
      CallNode(Now(), c);
      ResendInv(Now(), c, sent);
      if c.gen != gen {
        calls := calls - {c};
        return;
      }
      if sent {
        calls := calls - {c} + {c.(kind := Report)};
      } else {
        ReportCb(c, false);
      }
    }

    method WatchdogCb()
      requires Inv(Now()) && armed
      modifies this
      ensures Now() == Expired(old(Now())) && Inv(Now()) && !busy
    {
      WatchdogInv(Now());
      gen := gen + 1;
      ghost var was := Now();
      var i := 1;
      while i < |nodes|
        invariant rounds != [] && 1 <= i
        invariant MissAll(Now(), i) == MissAll(was, 1)
        decreases |nodes| - i
      {
        if !nodes[i].answered {
          NodeMissed(i);
        }
        i := i + 1;
      }
      waiting := 1;
      PollFinish();
    }

    method MissesOfId(id: string, prev: seq<Node>) returns (n: nat)
      ensures n == MissesOf(id, prev)
    {
      var i := 0;
      while i < |prev|
        invariant i <= |prev| && MissesOf(id, prev) == MissesOf(id, prev[i..])
      {
        if prev[i].id == id {
          return prev[i].misses;
        }
        i := i + 1;
      }
      return 0;
    }

    /** The body of the loop over the members. */
    method PollMember(m: Member, prev: seq<Node>)
      requires rounds != []
      modifies this
      ensures Now() == Added(old(Now()), m, prev)
    {
      if |nodes| >= NODE_MAX || m.id == "" || m.addr == "" {
        return;
      }
      var i := |nodes|;
      var misses := MissesOfId(m.id, prev);
      nodes := nodes + [Node(m.id, misses, false, false)];
      rounds := Grow(rounds);
      waiting := waiting + 1;
      match m.send {
        case Applied => calls := calls + {Call(gen, i, Apply)};
        case Asked => calls := calls + {Call(gen, i, Report)};
        case Failed => NodeReport(i, false);
      }
    }

    method MeshPollRun(members: seq<Member>)
      requires Inv(Now())
      modifies this
      ensures Now() == Polled(old(Now()), members) && Inv(Now())
    {
      hide Inv, Added;
      RunInv(Now(), members);
      if members == [] || busy {
        return;
      }
      var prev := nodes;
      nodes := [Node(SELF, 0, true, false)];
      waiting, busy, armed := 1, true, true;
      rounds := rounds + [Round(0, [], 0)];
      for k := 0 to |members|
        invariant rounds != [] && Now() == AddedAll(Began(old(Now())), members[..k], prev)
      {
        assert members[..k + 1][..k] == members[..k];
        PollMember(members[k], prev);
      }
      assert members[..|members|] == members;
      PollFinish();
    }
  }
}
