/**
 Whole runs of the roaming policy on one client: every event that touches its record, in any
 order, at times that never go back. The promises of the policy are properties of all such runs.
 */
module PolicyRuns {
  import opened Wrappers
  import opened RoamConfig
  import opened Station
  import opened Policy

  /** Attempt, poll of connected clients, measurement, departure, pass, request of the controller, expiry. */
  datatype Event =
    | Attempted(a: Attempt, signal: int)
    | Updated(bss: Bss, signal: int, btm: bool, rrm: bool, ht: bool, when: nat)
    | Measured(band: Band, signal: int, when: nat)
    | Gone(when: nat)
    | Passing(p: Pass, budget: nat)
    | Requested(when: nat)
    | Expired(when: nat)

  function Time(e: Event): nat {
    match e
    case Attempted(a, _) => a.now
    case Passing(p, _) => p.now
    case _ => e.when
  }

  function Polled(s: Sta, e: Event): Sta
    requires e.Updated?
  {
    Put(s, e.bss.band, On(s, e.bss.band).(ht := e.ht)).(btm := e.btm, rrm := e.rrm)
  }

  function TurnOf(p: Pass, s: Sta, budget: nat): Turn {
    if !p.c.enabled then Turn(s, budget, false, Stay)
    else if !Steers(p) then Turn(Evicted(p, s), budget, false, Stay)
    else Decided(p, Evicted(p, s), budget)
  }

  function Step(c: Config, s: Sta, e: Event): Sta {
    match e
    case Attempted(a, signal) => Allow(c, Seen(s, a.bss.band, signal, a.now), a).sta
    case Updated(bss, signal, _, _, _, when) => Connected(c, Polled(s, e), bss, signal, when)
    case Measured(band, signal, when) => Reported(s, band, signal, when)
    case Gone(_) => Reset(s)
    case Passing(p, budget) => TurnOf(p, s, budget).sta
    case Requested(when) => Commanded(c, s, when).sta
    case Expired(_) => Fresh(s.addr)
  }

  /** The handlers of the code, put together: each event does to the record what the machine does. Expiry
      frees it, and the next event of the client starts a new one. */
  method Handle(c: Config, s: Client, e: Event) returns (t: Client, ghost act: Act)
    requires e.Passing? ==> e.p.c == c
    modifies s
    ensures t.Now() == Step(c, old(s.Now()), e) && act == ActOf(c, old(s.Now()), e)
    ensures t == s || (e.Expired? && fresh(t))
  {
    hide Allow, Connected, Seen, Reported, Decided, Commanded, Evicted;
    t, act := s, Stay;
    match e {
      case Attempted(a, signal) =>
        s.StaBandSeen(a.bss.band, signal, a.now);
        var ok := PolicyAllow(c, s, a);
      case Updated(bss, signal, btm, rrm, ht, now) =>
        s.btm := btm;
        s.rrm := rrm;
        s.SetBand(bss.band, s.Band(bss.band).(ht := ht));
        s.SetConnected(c, bss, signal, now);
      case Measured(band, signal, now) =>
        s.BeaconReport(band, signal, now);
      case Gone(_) =>
        s.StaReset();
      case Passing(p, budget) =>
        act := HandlePass(p, s, budget);
      case Requested(now) =>
        var done;
        done, act := MeshNodeSteer(c, s, now);
      case Expired(_) =>
        t := new Client(s.addr);
    }
  }

  /** roam_policy_run for one client. */
  method HandlePass(p: Pass, s: Client, budget: nat) returns (ghost act: Act)
    modifies s
    ensures s.Now() == TurnOf(p, old(s.Now()), budget).sta && act == TurnOf(p, old(s.Now()), budget).act
  {
    hide Decided;
    act := Stay;
    if !p.c.enabled {
      return;
    }
    if s.bss == Some(p.from) && p.verdict(s.addr, p.from.band) != AdmitOk {
      s.StaReset();
    }
    if !p.c.bssTransition || !p.c.bandSteering || p.c.prefer == NoBand || p.to.None? {
      return;
    }
    var left;
    ghost var turn;
    left, turn := PolicyTurn(p, s, budget);
    act := turn.act;
  }

  /** Events of one configuration, for a client without a rule; only a record that expires is forgotten. */
  ghost predicate Enabled(c: Config, s: Sta, e: Event) {
    && Time(e) > 0
    && (e.Attempted? ==> e.a.verdict == AdmitOk)
    && (e.Passing? ==> e.p.c == c)
    && (e.Expired? ==> Expires(c, s, e.when))
  }

  ghost predicate Run(c: Config, ss: seq<Sta>, es: seq<Event>) {
    && |ss| == |es| + 1 && ss[0] == Fresh(ss[0].addr)
    && (forall k :: 0 <= k < |es| ==> Enabled(c, ss[k], es[k]) && ss[k + 1] == Step(c, ss[k], es[k]))
    && (forall i, j :: 0 <= i < j < |es| ==> Time(es[i]) <= Time(es[j]))
  }

  ghost predicate Later(es: seq<Event>, e: Event) {
    es == [] || Time(es[|es| - 1]) <= Time(e)
  }

  /** A run goes on with any event that is enabled and not before the last one. */
  lemma RunPush(c: Config, ss: seq<Sta>, es: seq<Event>, e: Event)
    requires Run(c, ss, es) && Enabled(c, ss[|es|], e) && Later(es, e)
    ensures Run(c, ss + [Step(c, ss[|es|], e)], es + [e])
  {
    hide Step, Enabled;
    var tt, fs := ss + [Step(c, ss[|es|], e)], es + [e];
    forall k | 0 <= k < |fs|
      ensures Enabled(c, tt[k], fs[k]) && tt[k + 1] == Step(c, tt[k], fs[k])
    {
      if k < |es| {
        assert Enabled(c, ss[k], es[k]) && ss[k + 1] == Step(c, ss[k], es[k]);
      }
    }
  }

  /** The record is the same one at all of these events. */
  ghost predicate SameRecord(es: seq<Event>, i: nat, j: nat)
    requires i <= j <= |es|
  {
    forall k :: i <= k < j ==> !es[k].Expired?
  }

  predicate AttemptOn(e: Event, b: Band) {
    e.Attempted? && e.a.bss.band == b
  }

  function AnswerTo(c: Config, s: Sta, e: Event): bool
    requires e.Attempted?
  {
    Allow(c, Seen(s, e.a.bss.band, e.signal, e.a.now), e.a).allowed
  }

  predicate Refused(c: Config, s: Sta, e: Event, b: Band) {
    AttemptOn(e, b) && !AnswerTo(c, s, e)
  }

  predicate Accepted(c: Config, s: Sta, e: Event, b: Band) {
    AttemptOn(e, b) && AnswerTo(c, s, e)
  }

  // ---------------------------------------------------------------- no lockout

  function Deny(s: Sta, b: Band): nat { On(s, b).denyStart }

  function Grace(s: Sta, b: Band): nat { On(s, b).allowUntil }

  /** Only an attempt on a band touches its refusals. */
  lemma OthersKeep(c: Config, s: Sta, e: Event, b: Band)
    requires Enabled(c, s, e) && !AttemptOn(e, b) && !e.Expired?
    ensures Deny(Step(c, s, e), b) == Deny(s, b) && Grace(Step(c, s, e), b) == Grace(s, b)
  {
    hide Lured, ShouldLeave, BeaconDue, CanSteer;
  }

  lemma RefusalStarts(c: Config, s: Sta, e: Event, b: Band)
    requires Enabled(c, s, e) && Refused(c, s, e, b)
    ensures var d := Deny(Step(c, s, e), b);
            d > 0 && Time(e) - d < c.denyTime && d == (if Deny(s, b) == 0 then Time(e) else Deny(s, b))
    ensures Grace(Step(c, s, e), b) == Grace(s, b)
  {
    hide Lured;
  }

  lemma AcceptanceEnds(c: Config, s: Sta, e: Event, b: Band)
    requires Enabled(c, s, e) && Accepted(c, s, e, b)
    ensures var d := Deny(Step(c, s, e), b); d == 0 || d == Deny(s, b)
    ensures var g := Grace(Step(c, s, e), b);
            g == Grace(s, b) || (g == Time(e) + c.ageTime && Time(e) >= Grace(s, b))
  {
    hide Lured;
  }

  lemma {:induction false} DenyInThePast(c: Config, ss: seq<Sta>, es: seq<Event>, k: nat, b: Band)
    requires Run(c, ss, es) && 0 < k <= |es|
    ensures Deny(ss[k], b) <= Time(es[k - 1])
  {
    hide Step, AnswerTo, Enabled;
    var s, e := ss[k - 1], es[k - 1];
    assert Enabled(c, s, e);
    if k > 1 {
      DenyInThePast(c, ss, es, k - 1, b);
      assert Time(es[k - 2]) <= Time(es[k - 1]);
    }
    DenyStep(c, s, e, b);
  }

  lemma DenyStep(c: Config, s: Sta, e: Event, b: Band)
    requires Enabled(c, s, e)
    ensures var d := Deny(Step(c, s, e), b); d == Deny(s, b) || d == Time(e) || d == 0
  {
    hide Step, AnswerTo, Enabled;
    if e.Expired? {
      assert Deny(Step(c, s, e), b) == 0 by {
        ExpiryClears(c, s, e, b);
      }
    } else if Refused(c, s, e, b) {
      RefusalStarts(c, s, e, b);
    } else if Accepted(c, s, e, b) {
      AcceptanceEnds(c, s, e, b);
    } else {
      OthersKeep(c, s, e, b);
    }
  }

  lemma ExpiryClears(c: Config, s: Sta, e: Event, b: Band)
    requires e.Expired?
    ensures Deny(Step(c, s, e), b) == 0
  {
  }

  /** After a refusal, and until an acceptance on the band, the refusals keep their first time. */
  lemma {:induction false} DenyKept(c: Config, ss: seq<Sta>, es: seq<Event>, i: nat, k: nat, b: Band)
    requires Run(c, ss, es) && i < k <= |es| && SameRecord(es, i, k) && Refused(c, ss[i], es[i], b)
    requires forall m :: i <= m < k ==> !Accepted(c, ss[m], es[m], b)
    ensures Deny(ss[k], b) == Deny(ss[i + 1], b) > 0
    decreases k - i
  {
    hide Step, AnswerTo, Enabled;
    var s, e := ss[k - 1], es[k - 1];
    assert Enabled(c, s, e);
    if k == i + 1 {
      RefusalStarts(c, s, e, b);
    } else {
      DenyKept(c, ss, es, i, k - 1, b);
      if Refused(c, s, e, b) {
        RefusalStarts(c, s, e, b);
      } else {
        OthersKeep(c, s, e, b);
      }
    }
  }

  /** Two refusals on a band, with no acceptance on it between them, are less than the deny time apart. */
  lemma NoLockout(c: Config, ss: seq<Sta>, es: seq<Event>, i: nat, j: nat, b: Band)
    requires Run(c, ss, es) && i < j < |es| && SameRecord(es, i, j)
    requires Refused(c, ss[i], es[i], b) && Refused(c, ss[j], es[j], b)
    requires forall m :: i <= m < j ==> !Accepted(c, ss[m], es[m], b)
    ensures Time(es[j]) - Time(es[i]) < c.denyTime
  {
    hide Step, AnswerTo;
    DenyKept(c, ss, es, i, j, b);
    DenyInThePast(c, ss, es, i + 1, b);
    assert Enabled(c, ss[j], es[j]);
    RefusalStarts(c, ss[j], es[j], b);
  }

  /** The signal here after the attempt, 0 without any. */
  function Here(s: Sta, e: Event): int
    requires e.Attempted?
  {
    if e.signal != NO_SIGNAL then e.signal else On(s, e.a.bss.band).signal
  }

  /** The attempt is one that a client lured to the other band should make there, outside any time of grace. */
  predicate Unwanted(c: Config, s: Sta, e: Event) {
    && e.Attempted? && Steered(c, e.a) && Time(e) >= On(s, e.a.bss.band).allowUntil
    && Tempted(c, e.a, Here(s, e), On(s, Other(e.a.bss.band)))
  }

  /** A client without a rule is refused exactly when its attempt is unwanted and the refusals since the
      first one are shorter than the deny time. */
  lemma WhoIsRefused(c: Config, s: Sta, e: Event, b: Band)
    requires Enabled(c, s, e)
    ensures Refused(c, s, e, b) <==>
      && Unwanted(c, s, e) && e.a.bss.band == b
      && if On(s, b).denyStart == 0 then c.denyTime > 0 else Time(e) - On(s, b).denyStart < c.denyTime
  {
    hide Allow, Steered, Tempted;
    if AttemptOn(e, b) {
      AllowIff(c, Seen(s, b, e.signal, e.a.now), e.a);
      SteeredMeans(c, e.a);
    }
  }

  lemma SteeredMeans(c: Config, a: Attempt)
    ensures Steered(c, a) ==> c.enabled && a.managed
  {
  }

  /** The client has been refused for the deny time and is let in. */
  predicate GaveUp(c: Config, s: Sta, e: Event, b: Band) {
    Accepted(c, s, e, b) && Grace(Step(c, s, e), b) != Grace(s, b)
  }

  lemma {:induction false} GraceKept(c: Config, ss: seq<Sta>, es: seq<Event>, i: nat, k: nat, b: Band)
    requires Run(c, ss, es) && i < k <= |es| && SameRecord(es, i, k) && GaveUp(c, ss[i], es[i], b)
    ensures Grace(ss[k], b) >= Time(es[i]) + c.ageTime
    decreases k - i
  {
    hide Step, AnswerTo, Enabled;
    var s, e := ss[k - 1], es[k - 1];
    assert Enabled(c, s, e);
    if k > i + 1 {
      GraceKept(c, ss, es, i, k - 1, b);
      assert Time(es[i]) <= Time(e);
    }
    if Accepted(c, s, e, b) {
      AcceptanceEnds(c, s, e, b);
    } else if Refused(c, s, e, b) {
      RefusalStarts(c, s, e, b);
    } else {
      OthersKeep(c, s, e, b);
    }
  }

  lemma GraceAccepts(c: Config, s: Sta, e: Event, b: Band)
    requires Enabled(c, s, e) && AttemptOn(e, b) && Time(e) < Grace(s, b)
    ensures AnswerTo(c, s, e)
  {
    hide Lured;
  }

  /** After giving up, every attempt on the band is accepted for the age time. */
  lemma AcceptedAfterGivingUp(c: Config, ss: seq<Sta>, es: seq<Event>, i: nat, j: nat, b: Band)
    requires Run(c, ss, es) && i < j < |es| && SameRecord(es, i, j) && GaveUp(c, ss[i], es[i], b)
    requires AttemptOn(es[j], b) && Time(es[j]) < Time(es[i]) + c.ageTime
    ensures Accepted(c, ss[j], es[j], b)
  {
    hide Step, AnswerTo;
    GraceKept(c, ss, es, i, j, b);
    assert Enabled(c, ss[j], es[j]);
    GraceAccepts(c, ss[j], es[j], b);
  }

  // ---------------------------------------------------------------- bounded steering

  function ActOf(c: Config, s: Sta, e: Event): Act {
    match e
    case Passing(p, budget) => TurnOf(p, s, budget).act
    case Requested(when) => Commanded(c, s, when).act
    case _ => Stay
  }

  /** Connected to the access point of the pass, long enough, admitted where it would go, not left alone,
      and within the limits on requests. */
  predicate Askable(p: Pass, s: Sta)
    requires p.to.Some?
  {
    && p.c.enabled && p.c.bssTransition && p.c.bandSteering && p.c.prefer != NoBand
    && s.bss == Some(p.from) && p.now - s.connectedSince >= p.c.holdTime
    && p.verdict(s.addr, p.from.band) == AdmitOk && p.verdict(s.addr, p.to.value.band) == AdmitOk
    && (s.giveUpUntil == 0 || p.now >= s.giveUpUntil)
    && s.steerCount < p.c.steerRetries && (s.lastSteer == 0 || p.now - s.lastSteer >= 5000)
  }

  /** The two signals are reason enough to leave the band. */
  predicate Unfit(c: Config, here: Info, there: Info, band: Band, now: nat) {
    var heard := there.present && there.signal != NO_SIGNAL && now - there.seen <= c.ageTime;
    var known := here.signal != NO_SIGNAL;
    || (known && here.signal < c.kickRssi)
    || (heard && known && there.signal >= here.signal + c.rssiDiff)
    || (heard && band == PreferredBand(c) && known && here.signal < there.signal && here.signal < c.rssiLow)
    || (heard && band != PreferredBand(c) && (c.prefer == PreferLow || here.ht) && there.signal >= c.rssiGood
        && (known ==> here.signal < there.signal + c.rssiDiff))
  }

  /** Exactly who is asked to move in a pass, who is disconnected, and who is sent a beacon request. */
  lemma WhoIsAsked(p: Pass, s: Sta, budget: nat)
    requires p.to.Some?
    ensures var turn := TurnOf(p, s, budget);
      var here, there := On(s, p.from.band), On(s, p.to.value.band);
      var asked := Askable(p, s) && Unfit(p.c, here, there, p.from.band, p.now);
      && (turn.act == Btm <==> asked && s.btm)
      && (turn.act == Kick <==> asked && !s.btm && p.c.allowKick)
      && (turn.beacon <==>
           && Askable(p, s) && !(there.present && there.signal != NO_SIGNAL && p.now - there.seen <= p.c.ageTime)
           && s.rrm && p.c.neighborReports && p.to.value.opClass != 0 && budget > 0
           && s.silent < p.c.steerRetries && p.now - s.lastBeaconReq >= p.c.beaconReqInterval)
  {
    hide ShouldLeave, Unfit;
    if p.c.prefer != NoBand {
      UnfitIff(p.c, s, p.from, p.to.value, p.now);
    }
    SameSignals(p, s);
  }

  /** The band it is asked to leave is the one it was on; the controller's plain request names none. */
  lemma BandAskedToLeave(c: Config, s: Sta, e: Event)
    requires Enabled(c, s, e) && !e.Expired?
    ensures Step(c, s, e).steerFrom ==
      if (e.Passing? && ActOf(c, s, e) != Stay) || ActOf(c, s, e) == Kick then s.bss.value.band else s.steerFrom
  {
    hide Lured, ShouldLeave, BeaconDue, InfoFresh;
  }

  lemma UnfitIff(c: Config, s: Sta, from: Bss, to: Bss, now: nat)
    requires c.prefer != NoBand
    ensures ShouldLeave(c, s, from, to, now) <==> Unfit(c, On(s, from.band), On(s, to.band), from.band, now)
  {
  }

  /** Nothing a pass notes down has a say in whether the client should leave. */
  lemma SameSignals(p: Pass, s: Sta)
    requires p.to.Some?
    ensures var t := s.(giveUpUntil := 0);
      forall n, m :: ShouldLeave(p.c, t.(lastBeaconReq := n, silent := m), p.from, p.to.value, p.now)
        == ShouldLeave(p.c, t, p.from, p.to.value, p.now) == ShouldLeave(p.c, s, p.from, p.to.value, p.now)
  {
    hide Leaves;
  }

  /** A new connection: found on another access point than before. */
  predicate Connects(s: Sta, e: Event) {
    e.Updated? && s.bss != Some(e.bss)
  }

  /** What an event does to the two fields that bound the requests. */
  lemma SteerStep(c: Config, s: Sta, e: Event)
    requires Enabled(c, s, e) && !e.Expired?
    ensures var t := Step(c, s, e);
            if ActOf(c, s, e) != Stay
            then CanSteer(c, s, Time(e)) && t.lastSteer == Time(e) && t.steerCount == s.steerCount + 1
            else t.lastSteer == s.lastSteer && t.steerCount == if Connects(s, e) then 0 else s.steerCount
  {
    hide Lured, ShouldLeave, BeaconDue, InfoFresh;
  }

  lemma {:induction false} LastSteerKept(c: Config, ss: seq<Sta>, es: seq<Event>, i: nat, k: nat)
    requires Run(c, ss, es) && i < k <= |es| && SameRecord(es, i, k) && ActOf(c, ss[i], es[i]) != Stay
    ensures ss[k].lastSteer >= Time(es[i]) > 0
    decreases k - i
  {
    hide Step, ActOf, CanSteer;
    assert Enabled(c, ss[i], es[i]);
    assert Enabled(c, ss[k - 1], es[k - 1]);
    hide Enabled;
    SteerStep(c, ss[k - 1], es[k - 1]);
    if k > i + 1 {
      LastSteerKept(c, ss, es, i, k - 1);
      assert Time(es[i]) <= Time(es[k - 1]);
    }
  }

  /** Any two requests to move, local or of the controller, are five seconds apart, also across connections. */
  lemma RequestsAreSpaced(c: Config, ss: seq<Sta>, es: seq<Event>, i: nat, j: nat)
    requires Run(c, ss, es) && i < j < |es| && SameRecord(es, i, j)
    requires ActOf(c, ss[i], es[i]) != Stay && ActOf(c, ss[j], es[j]) != Stay
    ensures Time(es[j]) - Time(es[i]) >= RETRY_INTERVAL
  {
    hide Step, ActOf;
    LastSteerKept(c, ss, es, i, j);
    assert Enabled(c, ss[j], es[j]) && !es[j].Expired? by {
      StayOnExpiry(c, ss[j], es[j]);
    }
    SteerStep(c, ss[j], es[j]);
  }

  lemma StayOnExpiry(c: Config, s: Sta, e: Event)
    requires ActOf(c, s, e) != Stay
    ensures !e.Expired?
  {
  }

  /** The connection at state j began with event k and has lasted since. */
  ghost predicate ConnectedSince(ss: seq<Sta>, es: seq<Event>, k: nat, j: nat)
    requires k < j <= |es| && |ss| == |es| + 1
  {
    && Connects(ss[k], es[k]) && ss[j].bss == Some(es[k].bss) && ss[j].connectedSince == Time(es[k])
    && forall m :: k < m <= j ==> ss[m].bss == ss[j].bss
  }

  lemma ConnectionStep(c: Config, s: Sta, e: Event)
    requires Enabled(c, s, e)
    ensures var t := Step(c, s, e);
      t.bss.Some? ==>
        if Connects(s, e) then t.bss == Some(e.bss) && t.connectedSince == Time(e)
        else t.bss == s.bss && t.connectedSince == s.connectedSince
  {
    hide Lured, TurnOf, CanSteer;
    if e.Passing? {
      ConnectionInPass(e.p, s, e.budget);
    }
  }

  lemma ConnectionInPass(p: Pass, s: Sta, budget: nat)
    ensures var t := TurnOf(p, s, budget).sta;
      t.bss.Some? ==> t.bss == s.bss && t.connectedSince == s.connectedSince
  {
    hide ShouldLeave, BeaconDue, InfoFresh, CanSteer;
  }

  lemma {:induction false} Connection(c: Config, ss: seq<Sta>, es: seq<Event>, j: nat) returns (k: nat)
    requires Run(c, ss, es) && j <= |es| && ss[j].bss.Some?
    ensures k < j && ConnectedSince(ss, es, k, j)
  {
    hide Step;
    k := 0;
    if j > 0 {
      assert Enabled(c, ss[j - 1], es[j - 1]);
      hide Enabled;
      ConnectionStep(c, ss[j - 1], es[j - 1]);
      if Connects(ss[j - 1], es[j - 1]) {
        k := j - 1;
      } else {
        k := Connection(c, ss, es, j - 1);
      }
    }
  }

  /** In every run a pass only asks a client that has been connected, without a break, for the hold time. */
  lemma AskedAfterHold(c: Config, ss: seq<Sta>, es: seq<Event>, j: nat) returns (k: nat)
    requires Run(c, ss, es) && j < |es| && es[j].Passing? && ActOf(c, ss[j], es[j]) != Stay
    ensures k < j && ConnectedSince(ss, es, k, j) && ss[j].bss == Some(es[j].p.from)
    ensures Time(es[j]) - Time(es[k]) >= c.holdTime
  {
    hide Step;
    var p := es[j].p;
    assert Enabled(c, ss[j], es[j]);
    assert p.to.Some?;
    WhoIsAsked(p, ss[j], es[j].budget);
    k := Connection(c, ss, es, j);
  }

  /** How many of the events from i to j are requests to move. */
  ghost function Acts(c: Config, ss: seq<Sta>, es: seq<Event>, i: nat, j: nat): nat
    requires |ss| == |es| + 1 && i <= j <= |es|
    decreases j - i
  {
    if i == j then 0
    else Acts(c, ss, es, i, j - 1) + if ActOf(c, ss[j - 1], es[j - 1]) != Stay then 1 else 0
  }

  ghost predicate OneConnection(ss: seq<Sta>, es: seq<Event>, i: nat, j: nat)
    requires |ss| == |es| + 1 && i <= j <= |es|
  {
    SameRecord(es, i, j) && forall k :: i <= k < j ==> !Connects(ss[k], es[k])
  }

  lemma {:induction false} ActsCounted(c: Config, ss: seq<Sta>, es: seq<Event>, i: nat, j: nat)
    requires Run(c, ss, es) && i <= j <= |es| && OneConnection(ss, es, i, j)
    ensures ss[j].steerCount == ss[i].steerCount + Acts(c, ss, es, i, j)
    decreases j - i
  {
    hide Step, ActOf, CanSteer, Connects;
    if i < j {
      ActsCounted(c, ss, es, i, j - 1);
      assert Enabled(c, ss[j - 1], es[j - 1]);
      SteerStep(c, ss[j - 1], es[j - 1]);
    }
  }

  lemma {:induction false} CountBounded(c: Config, ss: seq<Sta>, es: seq<Event>, k: nat)
    requires Run(c, ss, es) && k <= |es|
    ensures ss[k].steerCount <= c.steerRetries
  {
    hide Step, ActOf;
    if k > 0 {
      CountBounded(c, ss, es, k - 1);
      assert Enabled(c, ss[k - 1], es[k - 1]);
      if es[k - 1].Expired? {
        ExpiryForgets(c, ss[k - 1], es[k - 1]);
      } else {
        SteerStep(c, ss[k - 1], es[k - 1]);
      }
    }
  }

  lemma ExpiryForgets(c: Config, s: Sta, e: Event)
    requires e.Expired?
    ensures Step(c, s, e).steerCount == 0
  {
  }

  /** In one connection a client is asked to move, or disconnected, at most steer_retries times. */
  lemma RequestsAreBounded(c: Config, ss: seq<Sta>, es: seq<Event>, i: nat, j: nat)
    requires Run(c, ss, es) && i <= j <= |es| && OneConnection(ss, es, i, j)
    ensures Acts(c, ss, es, i, j) <= c.steerRetries
  {
    hide Step, ActOf, Connects, Acts;
    ActsCounted(c, ss, es, i, j);
    CountBounded(c, ss, es, j);
  }

  // ---------------------------------------------------------------- a client that keeps coming back

  /** The client came back to the band it was asked to leave often enough to be left alone. */
  predicate LeftAlone(c: Config, s: Sta, e: Event) {
    e.Updated? && Step(c, s, e).giveUpUntil == e.when + FLAP_PAUSE && Step(c, s, e).giveUpUntil != s.giveUpUntil
  }

  /** The client changed bands other than by such a return: of its own accord, or where it was asked to go. */
  predicate CrossesOtherwise(c: Config, s: Sta, e: Event) {
    && Connects(s, e) && s.bss.Some? && s.bss.value.band != e.bss.band
    && !(s.lastSteer != 0 && e.bss.band == s.steerFrom && e.when - s.lastSteer < c.ageTime)
  }

  lemma PauseStep(c: Config, s: Sta, e: Event, until: nat)
    requires Enabled(c, s, e) && !e.Expired? && !CrossesOtherwise(c, s, e)
    requires s.giveUpUntil >= until > 0 && Time(e) + FLAP_PAUSE >= until
    ensures (e.Passing? && Time(e) < until ==> ActOf(c, s, e) == Stay)
    ensures Time(e) < until ==> Step(c, s, e).giveUpUntil >= until
  {
    hide Lured, ShouldLeave, BeaconDue, InfoFresh, CanSteer;
  }

  lemma {:induction false} PauseKept(c: Config, ss: seq<Sta>, es: seq<Event>, i: nat, k: nat)
    requires Run(c, ss, es) && i < k <= |es| && SameRecord(es, i, k) && LeftAlone(c, ss[i], es[i])
    requires forall m :: i < m < k ==> !CrossesOtherwise(c, ss[m], es[m]) && Time(es[m]) < Time(es[i]) + FLAP_PAUSE
    ensures ss[k].giveUpUntil >= Time(es[i]) + FLAP_PAUSE
    decreases k - i
  {
    hide Step, ActOf, CrossesOtherwise;
    if k > i + 1 {
      PauseKept(c, ss, es, i, k - 1);
      assert Enabled(c, ss[k - 1], es[k - 1]);
      PauseStep(c, ss[k - 1], es[k - 1], Time(es[i]) + FLAP_PAUSE);
    }
  }

  /** For fifteen minutes no pass asks it to move, unless it crosses to the other band and that is no return. */
  lemma PauseIsKept(c: Config, ss: seq<Sta>, es: seq<Event>, i: nat, j: nat)
    requires Run(c, ss, es) && i < j < |es| && SameRecord(es, i, j) && LeftAlone(c, ss[i], es[i])
    requires forall m :: i < m < j ==> !CrossesOtherwise(c, ss[m], es[m])
    requires es[j].Passing? && Time(es[j]) < Time(es[i]) + FLAP_PAUSE
    ensures ActOf(c, ss[j], es[j]) == Stay
  {
    hide Step, ActOf, CrossesOtherwise;
    assert forall m :: i < m < j ==> Time(es[m]) <= Time(es[j]);
    PauseKept(c, ss, es, i, j);
    assert Enabled(c, ss[j], es[j]) && !CrossesOtherwise(c, ss[j], es[j]) by {
      NoCrossing(c, ss[j], es[j]);
    }
    PauseStep(c, ss[j], es[j], Time(es[i]) + FLAP_PAUSE);
  }

  lemma NoCrossing(c: Config, s: Sta, e: Event)
    requires e.Passing?
    ensures !CrossesOtherwise(c, s, e)
  {
  }

  // ---------------------------------------------------------------- measurements

  function BeaconOf(s: Sta, e: Event): bool {
    e.Passing? && TurnOf(e.p, s, e.budget).beacon
  }

  lemma BeaconStep(c: Config, s: Sta, e: Event)
    requires Enabled(c, s, e) && !e.Expired?
    ensures var t := Step(c, s, e);
            if BeaconOf(s, e)
            then Time(e) - s.lastBeaconReq >= c.beaconReqInterval && t.lastBeaconReq == Time(e)
                 && s.silent < c.steerRetries && t.silent == s.silent + 1
            else t.lastBeaconReq == s.lastBeaconReq && (t.silent == s.silent || t.silent == 0)
  {
    hide Lured, ShouldLeave, InfoFresh, CanSteer;
  }

  lemma {:induction false} LastBeaconKept(c: Config, ss: seq<Sta>, es: seq<Event>, i: nat, k: nat)
    requires Run(c, ss, es) && i < k <= |es| && SameRecord(es, i, k) && BeaconOf(ss[i], es[i])
    ensures ss[k].lastBeaconReq >= Time(es[i])
    decreases k - i
  {
    hide Step, BeaconOf;
    assert Enabled(c, ss[k - 1], es[k - 1]);
    hide Enabled;
    BeaconStep(c, ss[k - 1], es[k - 1]);
    if k > i + 1 {
      LastBeaconKept(c, ss, es, i, k - 1);
      assert Time(es[i]) <= Time(es[k - 1]);
    }
  }

  /** Two beacon requests to a client are beacon_req_interval apart. */
  lemma BeaconsAreSpaced(c: Config, ss: seq<Sta>, es: seq<Event>, i: nat, j: nat)
    requires Run(c, ss, es) && i < j < |es| && SameRecord(es, i, j)
    requires BeaconOf(ss[i], es[i]) && BeaconOf(ss[j], es[j])
    ensures Time(es[j]) - Time(es[i]) >= c.beaconReqInterval
  {
    hide Step, TurnOf;
    LastBeaconKept(c, ss, es, i, j);
    assert Enabled(c, ss[j], es[j]);
    BeaconStep(c, ss[j], es[j]);
  }

  // ---------------------------------------------------------------- the table

  /** A pass over the table is, for each client, one event of its own run. */
  lemma PassIsStep(p: Pass, ss: seq<Sta>, k: nat) returns (budget: nat)
    requires k < |ss|
    ensures Passed(p, ss)[k] == Step(p.c, ss[k], Passing(p, budget))
  {
    hide Spared, CanSteer, Probed, ShouldLeave;
    budget := 0;
    if p.c.enabled && Steers(p) {
      budget := TurnAt(p, EvictedAll(p, ss), k);
    }
  }

  lemma {:induction false} TurnAt(p: Pass, ss: seq<Sta>, k: nat) returns (budget: nat)
    requires p.to.Some? && k < |ss|
    ensures Turns(p, ss, BEACON_BUDGET)[k] == Decided(p, ss[k], budget)
    decreases |ss|
  {
    hide Decided;
    var n := |ss| - 1;
    if k < n {
      budget := TurnAt(p, ss[..n], k);
    } else {
      budget := Left(Turns(p, ss[..n], BEACON_BUDGET), BEACON_BUDGET);
    }
  }
}
