/**
 The pause between two requests to a client lives in its record, and a record that is not heard of
 is forgotten. What is left of the pause when the client has had two records.
 */
module Spacing {
  import opened Wrappers
  import opened RoamConfig
  import opened Station
  import opened Policy
  import opened PolicyRuns

  /** A request is only made to a client that is heard at that moment. */
  ghost predicate Heard(c: Config, ss: seq<Sta>, es: seq<Event>)
  {
    |ss| == |es| + 1 &&
    forall k :: 0 <= k < |es| && ActOf(c, ss[k], es[k]) != Stay ==> Newest(ss[k]) == Time(es[k])
  }

  /** Any two requests are at least gap apart, whatever records the client has had. */
  ghost predicate Spaced(c: Config, ss: seq<Sta>, es: seq<Event>, gap: nat)
  {
    |ss| == |es| + 1 &&
    forall i, j :: 0 <= i < j < |es| && ActOf(c, ss[i], es[i]) != Stay && ActOf(c, ss[j], es[j]) != Stay ==>
      Time(es[j]) - Time(es[i]) >= gap
  }

  /** An event of a record either leaves a band as it was heard or hears it now. */
  lemma SeenStep(c: Config, s: Sta, e: Event, b: Band)
    requires Enabled(c, s, e) && !e.Expired?
    ensures On(Step(c, s, e), b).seen == On(s, b).seen || On(Step(c, s, e), b).seen == Time(e)
  {
    hide Lured, ShouldLeave, BeaconDue, InfoFresh, CanSteer;
  }

  /** A client that was heard at some event is remembered as heard then or later. */
  lemma {:induction false} NewestKept(c: Config, ss: seq<Sta>, es: seq<Event>, i: nat, k: nat)
    requires Run(c, ss, es) && i <= k <= |es| && i < |es| && SameRecord(es, i, k)
    requires Newest(ss[i]) == Time(es[i])
    ensures Newest(ss[k]) >= Time(es[i])
    decreases k - i
  {
    hide Step;
    if i < k {
      NewestKept(c, ss, es, i, k - 1);
      assert Enabled(c, ss[k - 1], es[k - 1]);
      hide Enabled;
      SeenStep(c, ss[k - 1], es[k - 1], Low);
      SeenStep(c, ss[k - 1], es[k - 1], High);
      assert i < k - 1 ==> Time(es[i]) <= Time(es[k - 1]);
    }
  }

  /** The first event from i on at which a record expires. */
  lemma {:induction false} FirstExpiry(es: seq<Event>, i: nat, j: nat) returns (k: nat)
    requires i <= j <= |es| && !SameRecord(es, i, j)
    ensures i <= k < j && es[k].Expired? && SameRecord(es, i, k)
    decreases j - i
  {
    if SameRecord(es, i, j - 1) {
      k := j - 1;
    } else {
      k := FirstExpiry(es, i, j - 1);
    }
  }

  function Gap(c: Config): nat {
    if c.ageTime + 1 < RETRY_INTERVAL then c.ageTime + 1 else RETRY_INTERVAL
  }

  /** In every run in which requests go to clients just heard, the pause is the shorter of its own
      length and the time it takes to be forgotten. */
  lemma SpacedAcrossRecords(c: Config, ss: seq<Sta>, es: seq<Event>)
    requires Run(c, ss, es) && Heard(c, ss, es)
    ensures Spaced(c, ss, es, Gap(c))
  {
    hide Step, ActOf, Enabled;
    forall i, j | 0 <= i < j < |es| && ActOf(c, ss[i], es[i]) != Stay && ActOf(c, ss[j], es[j]) != Stay
      ensures Time(es[j]) - Time(es[i]) >= Gap(c)
    {
      if SameRecord(es, i, j) {
        RequestsAreSpaced(c, ss, es, i, j);
      } else {
        var k := FirstExpiry(es, i, j);
        NewestKept(c, ss, es, i, k);
        ExpiryIsLate(c, ss, es, k);
        assert Time(es[k]) <= Time(es[j]);
      }
    }
  }

  lemma ExpiryIsLate(c: Config, ss: seq<Sta>, es: seq<Event>, k: nat)
    requires Run(c, ss, es) && k < |es| && es[k].Expired?
    ensures Time(es[k]) - Newest(ss[k]) > c.ageTime
  {
    assert Enabled(c, ss[k], es[k]);
  }

  /** The access point of the runs below. */
  const BSS: Bss := Bss(0, Low, 0)

  /** Connected at time 1, asked to move and gone at t, forgotten, connected and asked again at u. */
  function AskedTwice(t: nat, u: nat): seq<Event> {
    [Updated(BSS, -50, true, false, false, 1), Requested(t), Gone(t), Expired(u),
     Updated(BSS, -50, true, false, false, u), Requested(u)]
  }

  ghost function States(c: Config, s: Sta, es: seq<Event>): (ss: seq<Sta>)
    ensures |ss| == |es| + 1 && ss[0] == s
    ensures forall k :: 0 <= k < |es| ==> ss[k + 1] == Step(c, ss[k], es[k])
    decreases |es|
  {
    if es == [] then [s] else [s] + States(c, Step(c, s, es[0]), es[1..])
  }

  /** The second request may come as soon as the record is forgotten. */
  lemma AskedTwiceRuns(c: Config, t: nat, u: nat) returns (ss: seq<Sta>)
    requires c.steerRetries >= 1 && 1 <= t <= u && u == c.ageTime + 2
    ensures var es := AskedTwice(t, u);
      && Run(c, ss, es) && |es| == 6
      && (forall k :: 0 <= k < 6 ==> (ActOf(c, ss[k], es[k]) == if k == 1 || k == 5 then Btm else Stay))
      && Newest(ss[1]) == 1 && Newest(ss[5]) == u
  {
    var es := AskedTwice(t, u);
    ss := States(c, Fresh(0), es);
    var s1 := Step(c, ss[0], es[0]);
    var s2 := Step(c, s1, es[1]);
    var s3 := Step(c, s2, es[2]);
    var s4 := Step(c, s3, es[3]);
    var s5 := Step(c, s4, es[4]);
    assert ss[1] == s1 && ss[2] == s2 && ss[3] == s3 && ss[4] == s4 && ss[5] == s5;
    assert s1.bss == Some(BSS) && s1.lastSteer == 0 && s1.steerCount == 0 && s1.btm && Newest(s1) == 1;
    assert s3.bss == None && Newest(s3) == 1;
    assert s4 == Fresh(0);
    assert s5.bss == Some(BSS) && s5.lastSteer == 0 && s5.steerCount == 0 && s5.btm && Newest(s5) == u;
  }

  /** Whatever the configuration, a client that went unheard for the age time and is then asked to
      move can be asked again in the same millisecond. */
  lemma ForgottenPause(c: Config) returns (ss: seq<Sta>, es: seq<Event>)
    requires c.steerRetries >= 1
    ensures Run(c, ss, es) && |es| == 6
    ensures ActOf(c, ss[1], es[1]) == Btm && ActOf(c, ss[5], es[5]) == Btm && Time(es[5]) == Time(es[1])
  {
    es := AskedTwice(c.ageTime + 2, c.ageTime + 2);
    ss := AskedTwiceRuns(c, c.ageTime + 2, c.ageTime + 2);
  }

  ghost predicate SpacedInRuns(c: Config, gap: nat) {
    forall ss: seq<Sta>, es: seq<Event> :: Run(c, ss, es) && Heard(c, ss, es) ==> Spaced(c, ss, es, gap)
  }

  /** Requests to clients just heard are five seconds apart in every run exactly when a record is
      remembered for that long. */
  lemma SpacingIff(c: Config)
    requires c.steerRetries >= 1
    ensures SpacedInRuns(c, RETRY_INTERVAL) <==> c.ageTime >= RETRY_INTERVAL - 1
  {
    hide Step, ActOf, Enabled, Run, Heard, Spaced;
    if c.ageTime >= RETRY_INTERVAL - 1 {
      forall ss: seq<Sta>, es: seq<Event> | Run(c, ss, es) && Heard(c, ss, es)
        ensures Spaced(c, ss, es, RETRY_INTERVAL)
      {
        SpacedAcrossRecords(c, ss, es);
      }
    } else {
      var ss, es := ShortPause(c);
    }
  }

  lemma ShortPause(c: Config) returns (ss: seq<Sta>, es: seq<Event>)
    requires c.steerRetries >= 1 && c.ageTime < RETRY_INTERVAL - 1
    ensures Run(c, ss, es) && Heard(c, ss, es) && !Spaced(c, ss, es, RETRY_INTERVAL)
  {
    hide Step, ActOf, Enabled;
    es := AskedTwice(1, c.ageTime + 2);
    ss := AskedTwiceRuns(c, 1, c.ageTime + 2);
    assert Time(es[5]) - Time(es[1]) == c.ageTime + 1;
  }
}
