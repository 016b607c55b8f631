/** Whether the policy can send a client back and forth between two bands of constant signals. */
module PingPong {
  import opened Wrappers
  import opened RoamConfig
  import opened Station
  import opened Policy
  import opened PolicyRuns

  /** Signals of both bands, and whether the client announced HT on each. */
  datatype Air = Air(low: int, high: int, htLow: bool, htHigh: bool)

  function SignalOn(a: Air, b: Band): int {
    if b == Low then a.low else a.high
  }

  /** A client on band b with a fresh signal of the other band is asked to leave. */
  predicate LeavesBand(c: Config, a: Air, b: Band) {
    Leaves(c, SignalOn(a, b), Some(SignalOn(a, Other(b))), b, if b == Low then a.htLow else a.htHigh)
  }

  /** There are two signals, and one of them at least is not below the threshold for leaving anyway. */
  predicate Heard(c: Config, a: Air) {
    a.low < 0 && a.high < 0 && !(a.low < c.kickRssi && a.high < c.kickRssi)
  }

  /** The band that is not preferred is good enough to be sent away from to it, yet too weak to stay on. */
  predicate Disputed(c: Config, a: Air) {
    var b := PreferredBand(c);
    var near, far := SignalOn(a, b), SignalOn(a, Other(b));
    && c.rssiGood <= near < c.kickRssi <= far && far - near < c.rssiDiff
    && (b == High ==> a.htLow)
  }

  /** A client is asked to leave both bands exactly when its preferred one is disputed. */
  lemma LeavesBothIff(c: Config, a: Air)
    requires Sane(c) && c.prefer != NoBand && Heard(c, a)
    ensures LeavesBand(c, a, Low) && LeavesBand(c, a, High) <==> Disputed(c, a)
  {
  }

  /** Where the threshold for leaving is no higher than that for being sent, or the difference is one. */
  predicate Calm(c: Config) {
    c.kickRssi <= c.rssiGood || c.rssiDiff == 1
  }

  /** The record holds these signals, that of the other band fresh. */
  predicate Records(c: Config, s: Sta, a: Air, from: Band, now: nat) {
    && On(s, Low).signal == a.low && On(s, High).signal == a.high
    && On(s, Low).ht == a.htLow && On(s, High).ht == a.htHigh
    && InfoFresh(c, On(s, Other(from)), now)
  }

  lemma RequestLeavesBand(p: Pass, s: Sta, budget: nat, a: Air)
    requires p.to.Some? && p.to.value.band == Other(p.from.band) && Records(p.c, s, a, p.from.band, p.now)
    ensures Decided(p, s, budget).act != Stay ==> LeavesBand(p.c, a, p.from.band)
  {
    hide Leaves, CanSteer, BeaconDue, Spared;
  }

  /** In a calm configuration no two passes, at whatever times and in whatever state of the limits, ask a
      client to leave one band and to leave the other, where its record holds the same signals. */
  lemma NeverAskedOnBoth(p: Pass, s: Sta, n: nat, q: Pass, t: Sta, m: nat, a: Air)
    requires p.c == q.c && Sane(p.c) && p.c.prefer != NoBand && Heard(p.c, a) && Calm(p.c)
    requires p.to.Some? && p.from.band == Low && p.to.value.band == High && Records(p.c, s, a, Low, p.now)
    requires q.to.Some? && q.from.band == High && q.to.value.band == Low && Records(q.c, t, a, High, q.now)
    ensures Decided(p, s, n).act == Stay || Decided(q, t, m).act == Stay
  {
    hide Leaves, Decided;
    RequestLeavesBand(p, s, n, a);
    RequestLeavesBand(q, t, m, a);
    LeavesBothIff(p.c, a);
  }

  // ---------------------------------------------------------------- runs

  /** The two access points of the device. */
  datatype Net = Net(low: Bss, high: Bss)

  function BssOn(n: Net, b: Band): Bss {
    if b == Low then n.low else n.high
  }

  predicate Pair(n: Net) {
    n.low.band == Low && n.high.band == High
  }

  function HtOn(a: Air, b: Band): bool {
    if b == Low then a.htLow else a.htHigh
  }

  /**
   An event in the life of a client that is on band b and of whom the signals are constant: polls
   find it where it is, measurements and attempts carry its signals, passes are over the two
   access points. The controller does not ask it to another device.
   */
  predicate Fits(a: Air, n: Net, b: Band, e: Event) {
    match e
    case Attempted(att, signal) => signal == NO_SIGNAL || signal == SignalOn(a, att.bss.band)
    case Updated(bss, signal, _, _, ht, _) => bss == BssOn(n, b) && signal == SignalOn(a, b) && ht == HtOn(a, b)
    case Measured(band, signal, _) => signal == SignalOn(a, band)
    case Passing(p, _) =>
      p.from == BssOn(n, p.from.band) && (p.to.Some? ==> p.to.value == BssOn(n, Other(p.from.band)))
    case Requested(_) => false
    case _ => true
  }

  /** Where an obedient client goes: off the band it was asked to leave. */
  function Obeyed(c: Config, s: Sta, e: Event, b: Band): Band {
    if e.Passing? && ActOf(c, s, e) != Stay then Other(e.p.from.band) else b
  }

  /** A run of the policy on an obedient client with constant signals; at is where it is. */
  ghost predicate Obedient(c: Config, a: Air, n: Net, ss: seq<Sta>, es: seq<Event>, at: seq<Band>) {
    && Pair(n) && Run(c, ss, es) && |at| == |ss|
    && forall k :: 0 <= k < |es| ==> Fits(a, n, at[k], es[k]) && at[k + 1] == Obeyed(c, ss[k], es[k], at[k])
  }

  function Changes(at: seq<Band>): nat {
    if |at| <= 1 then 0
    else Changes(at[..|at| - 1]) + if at[|at| - 2] != at[|at| - 1] then 1 else 0
  }

  /** What the record can know: no signal or the right one, and the right one where the client was found. */
  predicate Knows(a: Air, n: Net, s: Sta) {
    && (On(s, Low).signal == NO_SIGNAL || On(s, Low).signal == a.low)
    && (On(s, High).signal == NO_SIGNAL || On(s, High).signal == a.high)
    && (s.bss.Some? ==>
          var b := s.bss.value.band;
          s.bss.value == BssOn(n, b) && On(s, b).signal == SignalOn(a, b) && On(s, b).ht == HtOn(a, b))
  }

  lemma KnowsSeen(a: Air, n: Net, s: Sta, b: Band, signal: int, now: nat)
    requires Knows(a, n, s) && (signal == NO_SIGNAL || signal == SignalOn(a, b))
    ensures Knows(a, n, Seen(s, b, signal, now))
  {
  }

  /** Records that agree in what was heard and where the client is know the same. */
  predicate Alike(s: Sta, t: Sta) {
    && On(s, Low).signal == On(t, Low).signal && On(s, Low).ht == On(t, Low).ht
    && On(s, High).signal == On(t, High).signal && On(s, High).ht == On(t, High).ht
    && (t.bss == s.bss || t.bss == None)
  }

  lemma AllowAlike(c: Config, s: Sta, a: Attempt)
    ensures Alike(s, Allow(c, s, a).sta)
  {
    hide Lured, Ruled;
    if a.bss.band == Low {
      assert Allow(c, s, a).sta.high == s.high;
    } else {
      assert Allow(c, s, a).sta.low == s.low;
    }
  }

  lemma DecidedAlike(p: Pass, s: Sta, budget: nat)
    requires p.to.Some?
    ensures Alike(s, Decided(p, s, budget).sta)
  {
    hide Spared, CanSteer, ShouldLeave, BeaconDue, InfoFresh;
  }

  lemma TurnAlike(p: Pass, s: Sta, budget: nat)
    ensures Alike(s, TurnOf(p, s, budget).sta)
  {
    hide Decided;
    if p.to.Some? {
      DecidedAlike(p, Evicted(p, s), budget);
    }
  }

  lemma KnowsUpdated(c: Config, a: Air, n: Net, s: Sta, e: Event, b: Band)
    requires Pair(n) && Knows(a, n, s) && Fits(a, n, b, e) && e.Updated? && a.low < 0 && a.high < 0
    ensures Knows(a, n, Step(c, s, e))
  {
  }

  lemma KnowsStep(c: Config, a: Air, n: Net, s: Sta, e: Event, b: Band)
    requires Pair(n) && Knows(a, n, s) && Fits(a, n, b, e) && Enabled(c, s, e) && a.low < 0 && a.high < 0
    ensures Knows(a, n, Step(c, s, e))
  {
    match e
    case Attempted(att, signal) =>
      hide Allow;
      KnowsSeen(a, n, s, att.bss.band, signal, att.now);
      AllowAlike(c, Seen(s, att.bss.band, signal, att.now), att);
    case Passing(p, budget) =>
      hide TurnOf;
      TurnAlike(p, s, budget);
    case Updated(_, _, _, _, _, _) =>
      KnowsUpdated(c, a, n, s, e, b);
    case _ =>
  }

  lemma {:induction false} KnowsAlways(c: Config, a: Air, n: Net, ss: seq<Sta>, es: seq<Event>, at: seq<Band>, k: nat)
    requires Obedient(c, a, n, ss, es, at) && k <= |es| && a.low < 0 && a.high < 0
    ensures Knows(a, n, ss[k])
  {
    hide Step, Knows, Fits, Obeyed;
    if k == 0 {
      KnowsNothing(a, n, ss[0].addr);
    } else {
      KnowsAlways(c, a, n, ss, es, at, k - 1);
      assert Enabled(c, ss[k - 1], es[k - 1]);
      KnowsStep(c, a, n, ss[k - 1], es[k - 1], at[k - 1]);
    }
  }

  lemma KnowsNothing(a: Air, n: Net, addr: nat)
    ensures Knows(a, n, Fresh(addr))
  {
  }

  /** Without a measurement of the other band a client is only asked to leave where it would be with one. */
  lemma UnknownIsNoReason(c: Config, here: int, there: int, b: Band, ht: bool)
    requires Leaves(c, here, None, b, ht)
    ensures Leaves(c, here, Some(there), b, ht)
  {
  }

  lemma RequestNeedsLeave(p: Pass, s: Sta, budget: nat)
    requires TurnOf(p, s, budget).act != Stay
    ensures p.to.Some? && s.bss == Some(p.from) && ShouldLeave(p.c, s, p.from, p.to.value, p.now)
  {
    hide CanSteer, BeaconDue, Leaves;
  }

  lemma AskedToLeave(c: Config, a: Air, n: Net, s: Sta, e: Event, b: Band)
    requires Pair(n) && Knows(a, n, s) && Fits(a, n, b, e) && Enabled(c, s, e) && e.Passing?
    requires ActOf(c, s, e) != Stay
    ensures LeavesBand(c, a, e.p.from.band)
  {
    hide Leaves, TurnOf;
    RequestNeedsLeave(e.p, s, e.budget);
    var from := e.p.from.band;
    if !InfoFresh(c, On(s, Other(from)), e.p.now) {
      UnknownIsNoReason(c, SignalOn(a, from), SignalOn(a, Other(from)), from, HtOn(a, from));
    }
  }

  /** In a calm configuration an obedient client changes bands at most once, and is then never asked again
      to leave the band it is on. */
  lemma {:induction false} SettlesAfterOne(c: Config, a: Air, n: Net, ss: seq<Sta>, es: seq<Event>,
                                           at: seq<Band>, k: nat)
    requires Sane(c) && c.prefer != NoBand && Heard(c, a) && Calm(c) && Obedient(c, a, n, ss, es, at) && k <= |es|
    ensures Changes(at[..k + 1]) <= 1
    ensures Changes(at[..k + 1]) == 1 ==> !LeavesBand(c, a, at[k])
  {
    hide LeavesBand, Step, ActOf, Knows, Fits, Run;
    ObedientShape(c, a, n, ss, es, at);
    assert at[..k + 1][|at[..k + 1]| - 1] == at[k];
    if k > 0 {
      SettlesAfterOne(c, a, n, ss, es, at, k - 1);
      assert at[..k + 1][..k] == at[..k];
      var s, e := ss[k - 1], es[k - 1];
      if e.Passing? && ActOf(c, s, e) != Stay {
        KnowsAlways(c, a, n, ss, es, at, k - 1);
        RunEnabled(c, ss, es, k - 1);
        AskedToLeave(c, a, n, s, e, at[k - 1]);
        LeavesBothIff(c, a);
      }
    }
  }

  lemma RunEnabled(c: Config, ss: seq<Sta>, es: seq<Event>, k: nat)
    requires Run(c, ss, es) && k < |es|
    ensures Enabled(c, ss[k], es[k]) && ss[k + 1] == Step(c, ss[k], es[k])
  {
  }

  // ---------------------------------------------------------------- back and forth

  /** A client that has just been found on band b and may be asked once more. */
  predicate Settled(a: Air, n: Net, s: Sta, b: Band, now: nat) {
    && s.bss == Some(BssOn(n, b)) && On(s, b).signal == SignalOn(a, b) && On(s, b).ht == HtOn(a, b)
    && s.steerCount == 0 && s.giveUpUntil == 0 && s.btm && s.connectedSince <= now && s.lastSteer <= now
  }

  const NOBODY_RULED: (nat, Band) -> Verdict := (addr: nat, b: Band) => AdmitOk

  function Over(c: Config, n: Net, b: Band, now: nat): Pass {
    Pass(c, now, BssOn(n, b), Some(BssOn(n, Other(b))), NOBODY_RULED)
  }

  /** The other band is measured, a pass asks the client to leave, and it is found on the other band. */
  function Round(c: Config, a: Air, n: Net, b: Band, now: nat): seq<Event> {
    [Measured(Other(b), SignalOn(a, Other(b)), now), Passing(Over(c, n, b, now), 0),
     Updated(BssOn(n, Other(b)), SignalOn(a, Other(b)), true, false, HtOn(a, Other(b)), now)]
  }

  /** Every limit of the policy lets the request through, and obeying it starts all of them anew: the
      count of the connection, and also the count of returns, for the client goes where it was not asked from. */
  lemma RoundStep(c: Config, a: Air, n: Net, s: Sta, b: Band, was: nat)
    requires Pair(n) && Sane(c) && Steering(c) && Settled(a, n, s, b, was)
    requires a.low < 0 && a.high < 0 && LeavesBand(c, a, b)
    ensures var now := was + c.holdTime + RETRY_INTERVAL;
            var es := Round(c, a, n, b, now);
            var s1 := Step(c, s, es[0]);
            var s2 := Step(c, s1, es[1]);
            && ActOf(c, s1, es[1]) == Btm
            && Settled(a, n, Step(c, s2, es[2]), Other(b), now)
  {
    hide Leaves;
    var now := was + c.holdTime + RETRY_INTERVAL;
    var es := Round(c, a, n, b, now);
    var s1 := Step(c, s, es[0]);
    var p := Over(c, n, b, now);
    assert On(s1, b) == On(s, b) && InfoFresh(c, On(s1, Other(b)), now);
    assert Evicted(p, s1) == s1;
    assert !Spared(p, s1) && CanSteer(c, s1.(giveUpUntil := 0), now);
    assert ShouldLeave(c, s1, p.from, p.to.value, now);
  }

  /** The passes of the policy reach their clients. */
  predicate Steering(c: Config) {
    c.enabled && c.bssTransition && c.bandSteering && c.prefer != NoBand
  }

  /** Where both bands are left, the client goes back and forth in as many rounds as one likes. */
  lemma {:induction false} NeverSettles(c: Config, a: Air, n: Net, m: nat)
      returns (ss: seq<Sta>, es: seq<Event>, at: seq<Band>, was: nat)
    requires Pair(n) && Sane(c) && Steering(c) && a.low < 0 && a.high < 0
    requires LeavesBand(c, a, Low) && LeavesBand(c, a, High)
    ensures Obedient(c, a, n, ss, es, at) && Changes(at) == m
    ensures |es| > 0 && Time(es[|es| - 1]) == was > 0 && Settled(a, n, ss[|es|], at[|es|], was)
  {
    hide LeavesBand;
    if m == 0 {
      was := 1;
      var e := Updated(n.low, a.low, true, false, a.htLow, 1);
      var s := Fresh(0);
      ss, es, at := [s, Step(c, s, e)], [e], [Low, Low];
    } else {
      ss, es, at, was := NeverSettles(c, a, n, m - 1);
      ss, es, at, was := OneMore(c, a, n, ss, es, at, was);
    }
  }

  lemma OneMore(c: Config, a: Air, n: Net, ss: seq<Sta>, es: seq<Event>, at: seq<Band>, was: nat)
      returns (tt: seq<Sta>, fs: seq<Event>, bt: seq<Band>, now: nat)
    requires Pair(n) && Sane(c) && Steering(c) && a.low < 0 && a.high < 0
    requires LeavesBand(c, a, Low) && LeavesBand(c, a, High)
    requires Obedient(c, a, n, ss, es, at) && |es| > 0 && Time(es[|es| - 1]) == was > 0
    requires Settled(a, n, ss[|es|], at[|es|], was)
    ensures Obedient(c, a, n, tt, fs, bt) && Changes(bt) == Changes(at) + 1
    ensures |fs| > 0 && Time(fs[|fs| - 1]) == now > 0 && Settled(a, n, tt[|fs|], bt[|fs|], now)
  {
    hide Step, ActOf, Settled, LeavesBand, Obedient, Changes;
    ObedientShape(c, a, n, ss, es, at);
    var b := at[|es|];
    now := was + c.holdTime + RETRY_INTERVAL;
    var r := Round(c, a, n, b, now);
    RoundStep(c, a, n, ss[|es|], b, was);
    tt, fs, bt := Push(c, a, n, ss, es, at, r[0]);
    tt, fs, bt := Push(c, a, n, tt, fs, bt, r[1]);
    tt, fs, bt := Push(c, a, n, tt, fs, bt, r[2]);
  }

  lemma Push(c: Config, a: Air, n: Net, ss: seq<Sta>, es: seq<Event>, at: seq<Band>, e: Event)
      returns (tt: seq<Sta>, fs: seq<Event>, bt: seq<Band>)
    requires Obedient(c, a, n, ss, es, at) && Enabled(c, ss[|es|], e) && Later(es, e) && Fits(a, n, at[|es|], e)
    ensures Obedient(c, a, n, tt, fs, bt)
    ensures tt == ss + [Step(c, ss[|es|], e)] && fs == es + [e]
    ensures bt == at + [Obeyed(c, ss[|es|], e, at[|es|])]
    ensures Changes(bt) == Changes(at) + if bt[|es|] != bt[|es| + 1] then 1 else 0
  {
    hide Step, ActOf, Fits, Enabled, Run, Obeyed;
    ObedientShape(c, a, n, ss, es, at);
    tt, fs, bt := ss + [Step(c, ss[|es|], e)], es + [e], at + [Obeyed(c, ss[|es|], e, at[|es|])];
    RunPush(c, ss, es, e);
    assert bt[..|bt| - 1] == at;
    forall k | 0 <= k < |fs|
      ensures Fits(a, n, bt[k], fs[k]) && bt[k + 1] == Obeyed(c, tt[k], fs[k], bt[k])
    {
      if k < |es| {
        assert Fits(a, n, at[k], es[k]) && at[k + 1] == Obeyed(c, ss[k], es[k], at[k]);
      }
    }
  }

  /** Signals that a restless configuration disputes, next to the threshold for leaving. */
  function Edge(c: Config): Air {
    if PreferredBand(c) == Low then Air(c.kickRssi - 1, c.kickRssi, true, true)
    else Air(c.kickRssi, c.kickRssi - 1, true, true)
  }

  ghost predicate NeverTwice(c: Config) {
    forall a: Air, n: Net, ss: seq<Sta>, es: seq<Event>, at: seq<Band> ::
      Heard(c, a) && Obedient(c, a, n, ss, es, at) ==> Changes(at) <= 1
  }

  /** A client that obeys every request changes bands at most once in any run of the policy, whatever its
      signals, exactly when no pass reaches it, the configuration is calm, or no signal is strong enough to
      stay on. */
  lemma NoPingPongIff(c: Config)
    requires Sane(c)
    ensures NeverTwice(c) <==> !Steering(c) || Calm(c) || c.kickRssi >= 0
  {
    hide LeavesBand, Obedient, Changes;
    if Steering(c) && !Calm(c) && c.kickRssi < 0 {
      LeavesBothIff(c, Edge(c));
      var ss, es, at, was := NeverSettles(c, Edge(c), Net(Bss(0, Low, 0), Bss(1, High, 0)), 2);
      assert Heard(c, Edge(c));
    } else {
      forall a: Air, n: Net, ss: seq<Sta>, es: seq<Event>, at: seq<Band>
        | Heard(c, a) && Obedient(c, a, n, ss, es, at)
        ensures Changes(at) <= 1
      {
        if !Steering(c) {
          NeverAsked(c, a, n, ss, es, at);
        } else if Calm(c) {
          ObedientShape(c, a, n, ss, es, at);
          SettlesAfterOne(c, a, n, ss, es, at, |es|);
          assert at[..|es| + 1] == at;
        }
      }
    }
  }

  lemma ObedientShape(c: Config, a: Air, n: Net, ss: seq<Sta>, es: seq<Event>, at: seq<Band>)
    requires Obedient(c, a, n, ss, es, at)
    ensures |at| == |ss| == |es| + 1
  {
  }

  /** Where no pass reaches the client it stays where it is. */
  lemma {:induction false} NeverAsked(c: Config, a: Air, n: Net, ss: seq<Sta>, es: seq<Event>, at: seq<Band>)
    requires !Steering(c) && Obedient(c, a, n, ss, es, at)
    ensures Changes(at) == 0
  {
    hide Step, Enabled, Fits;
    forall k | 0 <= k < |es|
      ensures at[k + 1] == at[k]
    {
      RunEnabled(c, ss, es, k);
      if es[k].Passing? {
        Unasked(c, ss[k], es[k]);
      }
    }
    NoChanges(at);
  }

  lemma Unasked(c: Config, s: Sta, e: Event)
    requires !Steering(c) && Enabled(c, s, e) && e.Passing?
    ensures ActOf(c, s, e) == Stay
  {
  }

  lemma {:induction false} NoChanges(at: seq<Band>)
    requires forall k :: 0 <= k < |at| - 1 ==> at[k + 1] == at[k]
    ensures Changes(at) == 0
  {
    if |at| > 1 {
      NoChanges(at[..|at| - 1]);
      assert at[|at| - 2 + 1] == at[|at| - 2];
    }
  }
}
