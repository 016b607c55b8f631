/**
 A client that keeps returning to the band it was asked to leave is left alone for fifteen minutes:
 which returns count (package/roamd/src/sta.c), and whom the pause binds.
 */
module Flaps {
  import opened Wrappers
  import opened RoamConfig
  import opened Station
  import opened Policy
  import opened PolicyRuns
  import PingPong

  // ---------------------------------------------------------------- returns

  predicate Crosses(s: Sta, e: Event) {
    e.Updated? && s.bss.Some? && s.bss.value.band != e.bss.band
  }

  /** The client is found on the band it was last asked to leave, coming from the other one. */
  predicate Returns(c: Config, s: Sta, e: Event) {
    Crosses(s, e) && s.lastSteer != 0 && e.bss.band == s.steerFrom && e.when - s.lastSteer < c.ageTime
  }

  lemma CrossesIff(c: Config, s: Sta, e: Event)
    ensures Crosses(s, e) <==> Returns(c, s, e) || CrossesOtherwise(c, s, e)
    ensures !(Returns(c, s, e) && CrossesOtherwise(c, s, e))
  {
  }

  /** Where these fields are the same, or the pause has run out and is cleared. */
  predicate SameFlaps(s: Sta, t: Sta) {
    t.flapCount == s.flapCount && (t.giveUpUntil == s.giveUpUntil || t.giveUpUntil == 0)
  }

  lemma AllowFlaps(c: Config, s: Sta, a: Attempt)
    ensures SameFlaps(s, Allow(c, s, a).sta) && Allow(c, s, a).sta.bss == s.bss
    ensures Allow(c, s, a).sta.steerFrom == s.steerFrom
  {
    hide Lured, Ruled;
  }

  lemma TurnFlaps(p: Pass, s: Sta, budget: nat)
    ensures SameFlaps(s, TurnOf(p, s, budget).sta)
  {
    hide Spared, CanSteer, ShouldLeave, BeaconDue, InfoFresh;
  }

  lemma CommandFlaps(c: Config, s: Sta, now: nat)
    ensures SameFlaps(s, Commanded(c, s, now).sta)
  {
    hide CanSteer;
  }

  /** What an event does to the count of returns and to the pause. */
  lemma FlapStep(c: Config, s: Sta, e: Event)
    requires Enabled(c, s, e)
    ensures var t := Step(c, s, e);
      && t.flapCount == (if Returns(c, s, e) then s.flapCount + 1
                         else if CrossesOtherwise(c, s, e) || e.Expired? then 0 else s.flapCount)
      && (if Returns(c, s, e) && s.flapCount >= 1 then t.giveUpUntil == e.when + FLAP_PAUSE
          else t.giveUpUntil == s.giveUpUntil || t.giveUpUntil == 0)
  {
    hide Allow, TurnOf, Commanded;
    match e
    case Attempted(a, signal) => AllowFlaps(c, Seen(s, a.bss.band, signal, a.now), a);
    case Passing(p, budget) => TurnFlaps(p, s, budget);
    case Requested(now) => CommandFlaps(c, s, now);
    case _ =>
  }

  /** Event i, before k, is a return that no other crossing has undone since. */
  ghost predicate ReturnedAt(c: Config, ss: seq<Sta>, es: seq<Event>, i: nat, k: nat)
    requires |ss| == |es| + 1 && k <= |es|
  {
    && i < k && Returns(c, ss[i], es[i]) && SameRecord(es, i, k)
    && forall m :: i < m < k ==> !CrossesOtherwise(c, ss[m], es[m])
  }

  ghost predicate HasReturned(c: Config, ss: seq<Sta>, es: seq<Event>, k: nat)
    requires |ss| == |es| + 1 && k <= |es|
  {
    exists i :: ReturnedAt(c, ss, es, i, k)
  }

  lemma ReturnedNext(c: Config, ss: seq<Sta>, es: seq<Event>, k: nat)
    requires |ss| == |es| + 1 && k < |es|
    ensures HasReturned(c, ss, es, k + 1) <==>
            Returns(c, ss[k], es[k])
            || (HasReturned(c, ss, es, k) && !CrossesOtherwise(c, ss[k], es[k]) && !es[k].Expired?)
  {
    hide CrossesOtherwise, Returns;
    if Returns(c, ss[k], es[k]) {
      assert es[k].Updated? by { ReturnUpdates(c, ss[k], es[k]); }
      assert ReturnedAt(c, ss, es, k, k + 1);
    } else if HasReturned(c, ss, es, k) && !CrossesOtherwise(c, ss[k], es[k]) && !es[k].Expired? {
      var i :| ReturnedAt(c, ss, es, i, k);
      assert ReturnedAt(c, ss, es, i, k + 1);
    }
    if HasReturned(c, ss, es, k + 1) && !Returns(c, ss[k], es[k]) {
      var i :| ReturnedAt(c, ss, es, i, k + 1);
      assert ReturnedAt(c, ss, es, i, k);
    }
  }

  lemma ReturnUpdates(c: Config, s: Sta, e: Event)
    requires Returns(c, s, e)
    ensures e.Updated?
  {
  }

  lemma {:induction false} FlapsCounted(c: Config, ss: seq<Sta>, es: seq<Event>, k: nat)
    requires Run(c, ss, es) && k <= |es|
    ensures ss[k].flapCount >= 1 <==> HasReturned(c, ss, es, k)
  {
    hide Step, CrossesOtherwise, Returns, HasReturned;
    if k == 0 {
      assert !HasReturned(c, ss, es, 0) by { NothingReturned(c, ss, es); }
    } else {
      FlapsCounted(c, ss, es, k - 1);
      assert Enabled(c, ss[k - 1], es[k - 1]);
      FlapStep(c, ss[k - 1], es[k - 1]);
      CrossesIff(c, ss[k - 1], es[k - 1]);
      ReturnedNext(c, ss, es, k - 1);
      if es[k - 1].Expired? {
        NoReturnOnExpiry(c, ss[k - 1], es[k - 1]);
      }
    }
  }

  lemma NothingReturned(c: Config, ss: seq<Sta>, es: seq<Event>)
    requires |ss| == |es| + 1
    ensures !HasReturned(c, ss, es, 0)
  {
  }

  lemma NoReturnOnExpiry(c: Config, s: Sta, e: Event)
    requires e.Expired?
    ensures !Returns(c, s, e)
  {
  }

  /** In every run the pause is set exactly at a return that follows another one with no other crossing between
      the two; going where it was asked to go is such a crossing. */
  lemma PausedIff(c: Config, ss: seq<Sta>, es: seq<Event>, k: nat)
    requires Run(c, ss, es) && k < |es|
    ensures ss[k + 1].giveUpUntil > ss[k].giveUpUntil ==>
              Returns(c, ss[k], es[k]) && HasReturned(c, ss, es, k)
    ensures Returns(c, ss[k], es[k]) && HasReturned(c, ss, es, k) ==>
              ss[k + 1].giveUpUntil == Time(es[k]) + FLAP_PAUSE
  {
    hide Step, CrossesOtherwise, HasReturned;
    assert Enabled(c, ss[k], es[k]);
    FlapsCounted(c, ss, es, k);
    FlapStep(c, ss[k], es[k]);
  }

  // ---------------------------------------------------------------- returns without a break

  /** Once connected the record always has an access point: the client roams and is never disconnected. */
  ghost predicate Unbroken(ss: seq<Sta>) {
    forall k :: 0 <= k < |ss| - 1 && ss[k].bss.Some? ==> ss[k + 1].bss.Some?
  }

  /** A return leaves the client where it was last asked from, so that the way back is no return. */
  predicate AtMostOne(s: Sta) {
    && s.giveUpUntil == 0 && s.flapCount <= 1
    && (s.flapCount == 1 ==> s.bss.Some? && s.bss.value.band == s.steerFrom)
  }

  lemma TurnOne(p: Pass, s: Sta, budget: nat)
    requires AtMostOne(s) && (s.bss.Some? ==> TurnOf(p, s, budget).sta.bss.Some?)
    ensures AtMostOne(TurnOf(p, s, budget).sta)
  {
    hide CanSteer, ShouldLeave, BeaconDue, InfoFresh;
  }

  lemma OneStep(c: Config, s: Sta, e: Event)
    requires Enabled(c, s, e) && AtMostOne(s) && (s.bss.Some? ==> Step(c, s, e).bss.Some?)
    ensures AtMostOne(Step(c, s, e))
  {
    hide Allow, TurnOf, CanSteer;
    match e
    case Attempted(a, signal) => AllowFlaps(c, Seen(s, a.bss.band, signal, a.now), a);
    case Passing(p, budget) => TurnOne(p, s, budget);
    case _ =>
  }

  /** A client that roams between the bands without being disconnected is never left alone, however often
      it returns: being asked away and going resets the count of its returns. */
  lemma {:induction false} NoPauseWithoutBreak(c: Config, ss: seq<Sta>, es: seq<Event>, k: nat)
    requires Run(c, ss, es) && Unbroken(ss) && k <= |es|
    ensures AtMostOne(ss[k])
  {
    hide Step;
    if k > 0 {
      NoPauseWithoutBreak(c, ss, es, k - 1);
      assert ss[k - 1].bss.Some? ==> ss[k - 1 + 1].bss.Some?;
      assert Enabled(c, ss[k - 1], es[k - 1]);
      OneStep(c, ss[k - 1], es[k - 1]);
    }
  }

  const NET := PingPong.Net(Bss(0, Low, 0), Bss(1, High, 0))

  /** Asked to leave the low band for a signal so much better, found on the high one, and back on the low one. */
  function Cycle(c: Config, t: nat): seq<Event> {
    [Measured(High, -1, t), Passing(PingPong.Over(c, NET, Low, t), 0),
     Updated(NET.high, -1, true, false, true, t), Updated(NET.low, -1 - c.rssiDiff, true, false, true, t)]
  }

  predicate Home(c: Config, s: Sta, now: nat) {
    && s.bss == Some(NET.low) && s.low.signal == -1 - c.rssiDiff && s.btm && s.steerCount == 0
    && s.giveUpUntil == 0 && s.connectedSince <= now && s.lastSteer <= now
  }

  lemma CycleStep(c: Config, s: Sta, was: nat)
    requires Sane(c) && PingPong.Steering(c) && c.ageTime > 0 && Home(c, s, was)
    ensures var t := was + c.holdTime + RETRY_INTERVAL;
            var es := Cycle(c, t);
            var s1 := Step(c, s, es[0]);
            var s2 := Step(c, s1, es[1]);
            var s3 := Step(c, s2, es[2]);
            var s4 := Step(c, s3, es[3]);
            && ActOf(c, s1, es[1]) == Btm && Returns(c, s3, es[3]) && Home(c, s4, t)
            && s1.bss.Some? && s2.bss.Some? && s3.bss.Some?
  {
    var t := was + c.holdTime + RETRY_INTERVAL;
    var s1 := Step(c, s, Cycle(c, t)[0]);
    var p := PingPong.Over(c, NET, Low, t);
    assert On(s1, Low) == On(s, Low) && InfoFresh(c, On(s1, High), t);
    assert Evicted(p, s1) == s1 && !Spared(p, s1) && CanSteer(c, s1.(giveUpUntil := 0), t);
    assert ShouldLeave(c, s1, p.from, p.to.value, t);
  }

  /** Whatever the configuration, a client can be asked away and return any number of times, never
      disconnected in between, and every pass asks it again. */
  lemma {:induction false} ReturnsForEver(c: Config, n: nat) returns (ss: seq<Sta>, es: seq<Event>, was: nat)
    requires Sane(c) && PingPong.Steering(c) && c.ageTime > 0
    ensures Run(c, ss, es) && Unbroken(ss) && |es| == 4 * n + 1 && |ss| == |es| + 1
    ensures forall m :: 0 <= m < n ==>
      ActOf(c, ss[4 * m + 2], es[4 * m + 2]) == Btm && Returns(c, ss[4 * m + 4], es[4 * m + 4])
    ensures Time(es[4 * n]) == was > 0 && Home(c, ss[4 * n + 1], was)
  {
    if n == 0 {
      was := 1;
      var e := Updated(NET.low, -1 - c.rssiDiff, true, false, true, 1);
      ss, es := [Fresh(0), Step(c, Fresh(0), e)], [e];
    } else {
      ss, es, was := ReturnsForEver(c, n - 1);
      ss, es, was := OnceMore(c, ss, es, was);
      assert 4 * (n - 1) + 4 == 4 * n;
    }
  }

  lemma OnceMore(c: Config, ss: seq<Sta>, es: seq<Event>, was: nat)
      returns (tt: seq<Sta>, fs: seq<Event>, now: nat)
    requires Sane(c) && PingPong.Steering(c) && c.ageTime > 0
    requires Run(c, ss, es) && Unbroken(ss) && es != [] && |ss| == |es| + 1
    requires Time(es[|es| - 1]) == was > 0 && Home(c, ss[|es|], was)
    ensures Run(c, tt, fs) && Unbroken(tt) && |fs| == |es| + 4 && |tt| == |ss| + 4
    ensures ss == tt[..|ss|] && es == fs[..|es|]
    ensures ActOf(c, tt[|es| + 1], fs[|es| + 1]) == Btm && Returns(c, tt[|es| + 3], fs[|es| + 3])
    ensures Time(fs[|fs| - 1]) == now > 0 && Home(c, tt[|fs|], now)
  {
    hide Step, ActOf, Returns, Run;
    now := was + c.holdTime + RETRY_INTERVAL;
    var r := Cycle(c, now);
    CycleStep(c, ss[|es|], was);
    tt, fs := ss, es;
    for i := 0 to 4
      invariant |fs| == |es| + i && |tt| == |fs| + 1 && tt[..|ss|] == ss && fs == es + r[..i] && Run(c, tt, fs)
      invariant i > 0 ==> Time(fs[|fs| - 1]) == now
      invariant forall k :: 0 <= k < i ==> tt[|es| + k + 1] == Step(c, tt[|es| + k], r[k])
    {
      assert r[..i + 1] == r[..i] + [r[i]];
      RunPush(c, tt, fs, r[i]);
      tt, fs := tt + [Step(c, tt[|fs|], r[i])], fs + [r[i]];
    }
    assert r[..4] == r;
    forall k | 0 <= k < |tt| - 1 && tt[k].bss.Some?
      ensures tt[k + 1].bss.Some?
    {
      assert k < |es| ==> tt[k] == ss[k] && tt[k + 1] == ss[k + 1];
      assert tt[|es|] == ss[|es|];
    }
  }

  // ---------------------------------------------------------------- whom the pause binds

  /** The controller's request is carried out exactly when the limits of the connection let it, pause or no pause. */
  lemma ControllerIgnoresPause(c: Config, s: Sta, now: nat)
    ensures ActOf(c, s, Requested(now)) != Stay <==> s.bss.Some? && CanSteer(c, s, now) && (s.btm || c.allowKick)
  {
  }

  /** Two returns with a disconnection in between, the pause, and a request of the controller five
      seconds into it. */
  lemma AskedDuringPause(c: Config) returns (ss: seq<Sta>, es: seq<Event>)
    requires c.steerRetries >= 1 && c.ageTime > 0
    ensures Run(c, ss, es) && |es| == 7 && LeftAlone(c, ss[5], es[5])
    ensures ActOf(c, ss[6], es[6]) == Btm && Time(es[6]) < ss[6].giveUpUntil
  {
    var low, high := NET.low, NET.high;
    es := [Updated(high, -50, true, false, true, 1), Requested(1), Updated(low, -50, true, false, true, 1), Gone(1),
           Updated(high, -50, true, false, true, 1), Updated(low, -50, true, false, true, 1), Requested(5001)];
    var s0 := Fresh(0);
    var s1 := Step(c, s0, es[0]);
    var s2 := Step(c, s1, es[1]);
    var s3 := Step(c, s2, es[2]);
    assert s3.flapCount == 1 && s3.lastSteer == 1 && s3.steerFrom == Low;
    var s4 := Step(c, s3, es[3]);
    var s5 := Step(c, s4, es[4]);
    assert s5.flapCount == 1 && s5.bss == Some(high) && s5.giveUpUntil == 0;
    var s6 := Step(c, s5, es[5]);
    assert s6.giveUpUntil == 1 + FLAP_PAUSE && s6.steerCount == 0 && s6.btm && s6.bss == Some(low);
    ss := [s0, s1, s2, s3, s4, s5, s6, Step(c, s6, es[6])];
  }
}
