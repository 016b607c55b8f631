/**
 How long a client is refused: in every run of the policy, from the first unwanted attempt on a band
 for the deny time, and then not for the age time (package/roamd/src/policy.c).
 */
module Refusals {
  import opened RoamConfig
  import opened Station
  import opened Policy
  import opened PolicyRuns

  /** An attempt on band b in which steering has a say, outside the time of grace. */
  predicate Weighed(c: Config, s: Sta, e: Event, b: Band) {
    AttemptOn(e, b) && Steered(c, e.a) && Time(e) >= Grace(s, b)
  }

  /** What an event does to the two times of refusals. */
  lemma RefusalStep(c: Config, s: Sta, e: Event, b: Band)
    requires Enabled(c, s, e) && !e.Expired?
    ensures var t := Step(c, s, e);
      if !Weighed(c, s, e, b) then Deny(t, b) == Deny(s, b) && Grace(t, b) == Grace(s, b)
      else if Refused(c, s, e, b) then
        Grace(t, b) == Grace(s, b) && Deny(t, b) == if Deny(s, b) == 0 then Time(e) else Deny(s, b)
      else Deny(t, b) == 0 && Grace(t, b) == if Unwanted(c, s, e) then Time(e) + c.ageTime else Grace(s, b)
  {
    hide Allow, Steered, Tempted;
    if AttemptOn(e, b) {
      var q := Seen(s, b, e.signal, e.a.now);
      AllowIff(c, q, e.a);
      AllowLeaves(c, q, e.a);
      SteeredMeans(c, e.a);
    } else {
      OthersKeep(c, s, e, b);
    }
  }

  /** No series of refusals can be going on: the record is new, or a weighed attempt was accepted. */
  ghost predicate SeriesEnds(c: Config, ss: seq<Sta>, es: seq<Event>, m: nat, b: Band)
    requires m <= |es| && |ss| == |es| + 1
  {
    m == 0 || es[m - 1].Expired? ||
    (Weighed(c, ss[m - 1], es[m - 1], b) && Accepted(c, ss[m - 1], es[m - 1], b))
  }

  /** Nothing has been weighed on the band since then. */
  ghost predicate NoSeries(c: Config, ss: seq<Sta>, es: seq<Event>, i: nat, b: Band)
    requires i <= |es| && |ss| == |es| + 1
  {
    exists m: nat :: m <= i && SeriesEnds(c, ss, es, m, b)
      && forall k :: m <= k < i ==> !Weighed(c, ss[k], es[k], b) && !es[k].Expired?
  }

  lemma {:induction false} NoSeriesDeny(c: Config, ss: seq<Sta>, es: seq<Event>, m: nat, i: nat, b: Band)
    requires Run(c, ss, es) && m <= i <= |es| && SeriesEnds(c, ss, es, m, b)
    requires forall k :: m <= k < i ==> !Weighed(c, ss[k], es[k], b) && !es[k].Expired?
    ensures Deny(ss[i], b) == 0
    decreases i - m
  {
    hide Step, AnswerTo, Enabled, Weighed, Unwanted;
    if m < i {
      NoSeriesDeny(c, ss, es, m, i - 1, b);
      assert Enabled(c, ss[i - 1], es[i - 1]);
      RefusalStep(c, ss[i - 1], es[i - 1], b);
    } else if i > 0 {
      var s, e := ss[i - 1], es[i - 1];
      assert Enabled(c, s, e);
      if e.Expired? {
        ExpiryClears(c, s, e, b);
      } else {
        RefusalStep(c, s, e, b);
      }
    }
  }

  /** From i to j every attempt that is weighed is unwanted. */
  ghost predicate KeepsTrying(c: Config, ss: seq<Sta>, es: seq<Event>, i: nat, j: nat, b: Band)
    requires i <= j <= |es| && |ss| == |es| + 1
  {
    forall k :: i <= k < j && Weighed(c, ss[k], es[k], b) ==> Unwanted(c, ss[k], es[k])
  }

  /** ... and less than the deny time after the one at i. */
  ghost predicate WithinDenyTime(c: Config, ss: seq<Sta>, es: seq<Event>, i: nat, j: nat, b: Band)
    requires i < |es| && j <= |es| && |ss| == |es| + 1
  {
    forall k :: i <= k < j && Weighed(c, ss[k], es[k], b) ==> Time(es[k]) - Time(es[i]) < c.denyTime
  }

  lemma {:induction false} SeriesRuns(c: Config, ss: seq<Sta>, es: seq<Event>, i: nat, j: nat, b: Band)
    requires Run(c, ss, es) && i < j <= |es| && SameRecord(es, i, j) && NoSeries(c, ss, es, i, b)
    requires Weighed(c, ss[i], es[i], b)
    requires KeepsTrying(c, ss, es, i, j, b) && WithinDenyTime(c, ss, es, i, j, b)
    ensures Deny(ss[j], b) == Time(es[i]) > 0
    decreases j - i
  {
    hide Step, AnswerTo, Enabled, Weighed, NoSeries, Unwanted, Refused;
    var s, e := ss[j - 1], es[j - 1];
    assert Enabled(c, s, e);
    if j - 1 == i {
      assert Deny(s, b) == 0 by {
        FirstDeny(c, ss, es, i, b);
      }
    } else {
      SeriesRuns(c, ss, es, i, j - 1, b);
    }
    RefusalStep(c, s, e, b);
    if Weighed(c, s, e, b) {
      RefusedIff(c, s, e, b);
    }
  }

  lemma FirstDeny(c: Config, ss: seq<Sta>, es: seq<Event>, i: nat, b: Band)
    requires Run(c, ss, es) && i <= |es| && NoSeries(c, ss, es, i, b)
    ensures Deny(ss[i], b) == 0
  {
    hide Step, AnswerTo, Enabled, Weighed, SeriesEnds;
    var m: nat :| m <= i && SeriesEnds(c, ss, es, m, b)
      && forall k :: m <= k < i ==> !Weighed(c, ss[k], es[k], b) && !es[k].Expired?;
    NoSeriesDeny(c, ss, es, m, i, b);
  }

  /** An unwanted attempt is refused by the time since the first one alone. */
  lemma RefusedIff(c: Config, s: Sta, e: Event, b: Band)
    requires Enabled(c, s, e) && Weighed(c, s, e, b) && Unwanted(c, s, e)
    ensures Time(e) > 0
    ensures Refused(c, s, e, b) <==>
      if Deny(s, b) == 0 then c.denyTime > 0 else Time(e) - Deny(s, b) < c.denyTime
  {
    hide Allow, Unwanted, AnswerTo;
    WhoIsRefused(c, s, e, b);
  }

  /**
   In every run, a client that keeps making unwanted attempts on a band is refused at each of them
   until the deny time after the first one; the next one is let in, with a time of grace.
   */
  lemma RefusedUntilDenyTime(c: Config, ss: seq<Sta>, es: seq<Event>, i: nat, j: nat, b: Band)
    requires Run(c, ss, es) && i <= j < |es| && SameRecord(es, i, j) && NoSeries(c, ss, es, i, b)
    requires Weighed(c, ss[i], es[i], b) && Weighed(c, ss[j], es[j], b)
    requires KeepsTrying(c, ss, es, i, j + 1, b) && WithinDenyTime(c, ss, es, i, j, b)
    ensures Refused(c, ss[j], es[j], b) <==> Time(es[j]) - Time(es[i]) < c.denyTime
    ensures !Refused(c, ss[j], es[j], b) ==> Grace(ss[j + 1], b) == Time(es[j]) + c.ageTime
  {
    hide Step, AnswerTo, Enabled, NoSeries, Unwanted, Refused, Deny, Grace;
    if i == j {
      FirstDeny(c, ss, es, i, b);
    } else {
      SeriesRuns(c, ss, es, i, j, b);
    }
    assert Enabled(c, ss[j], es[j]) && ss[j + 1] == Step(c, ss[j], es[j]);
    RefusedIff(c, ss[j], es[j], b);
    RefusalStep(c, ss[j], es[j], b);
  }

  // ---------------------------------------------------------------- what was heard

  /** The event hears the client on band b ... */
  predicate Hears(e: Event, b: Band) {
    (e.Attempted? && e.a.bss.band == b) || (e.Updated? && e.bss.band == b) || (e.Measured? && e.band == b)
  }

  /** ... and with a signal, which a measurement always has. */
  predicate Measures(e: Event, b: Band) {
    Hears(e, b) && (e.Measured? || e.signal != NO_SIGNAL)
  }

  function SignalOf(e: Event): int
    requires e.Attempted? || e.Updated? || e.Measured?
  {
    e.signal
  }

  lemma HeardStep(c: Config, s: Sta, e: Event, b: Band)
    requires Enabled(c, s, e) && !e.Expired?
    ensures var was, now := On(s, b), On(Step(c, s, e), b);
      && (Hears(e, b) ==> now.present && now.seen == Time(e))
      && (!Hears(e, b) ==> now.present == was.present && now.seen == was.seen)
      && now.signal == if Measures(e, b) then SignalOf(e) else was.signal
  {
    hide Lured, TurnOf, CanSteer, Ruled;
    if e.Passing? {
      PassHears(e.p, s, e.budget);
    }
  }

  lemma PassHears(p: Pass, s: Sta, budget: nat)
    ensures TurnOf(p, s, budget).sta.low == s.low && TurnOf(p, s, budget).sta.high == s.high
  {
    hide ShouldLeave, BeaconDue, InfoFresh, CanSteer;
  }

  /** Event k is the last one before state j that hears the client on band b, event m the last with a signal. */
  ghost predicate LastHeard(es: seq<Event>, k: nat, m: nat, j: nat, b: Band) {
    && m <= k < j <= |es| && Hears(es[k], b) && Measures(es[m], b) && SameRecord(es, m, j)
    && (forall i :: k < i < j ==> !Hears(es[i], b)) && forall i :: m < i < j ==> !Measures(es[i], b)
  }

  lemma {:induction false} HeardSince(c: Config, ss: seq<Sta>, es: seq<Event>, j: nat, b: Band) returns (k: nat, m: nat)
    requires Run(c, ss, es) && j <= |es| && On(ss[j], b).signal != NO_SIGNAL
    ensures LastHeard(es, k, m, j, b)
    ensures On(ss[j], b).present && On(ss[j], b).seen == Time(es[k]) && On(ss[j], b).signal == SignalOf(es[m])
  {
    hide Step, Hears, Measures, On;
    FirstUnheard(c, ss, es, b);
    var e := es[j - 1];
    assert Enabled(c, ss[j - 1], e);
    hide Enabled;
    assert !e.Expired? by { ForgottenUnheard(c, ss[j - 1], e, b); }
    HeardStep(c, ss[j - 1], e, b);
    assert Measures(e, b) ==> Hears(e, b) by { MeasuresHears(e, b); }
    if Measures(e, b) {
      k, m := j - 1, j - 1;
    } else {
      k, m := HeardSince(c, ss, es, j - 1, b);
      if Hears(e, b) {
        k := j - 1;
      }
    }
  }

  lemma MeasuresHears(e: Event, b: Band)
    ensures Measures(e, b) ==> Hears(e, b)
    ensures Hears(e, b) ==> e.Attempted? || e.Updated? || e.Measured?
  {
  }

  lemma FirstUnheard(c: Config, ss: seq<Sta>, es: seq<Event>, b: Band)
    requires Run(c, ss, es)
    ensures On(ss[0], b).signal == NO_SIGNAL
  {
  }

  lemma ForgottenUnheard(c: Config, s: Sta, e: Event, b: Band)
    ensures e.Expired? ==> On(Step(c, s, e), b).signal == NO_SIGNAL
  {
  }

  /** In every run, whoever is refused was heard on the other band within the check time, last with a signal
      of rssi_good or better, and not rssi_diff better where it tries. */
  lemma RefusedWasHeard(c: Config, ss: seq<Sta>, es: seq<Event>, j: nat, b: Band) returns (k: nat, m: nat)
    requires Run(c, ss, es) && j < |es| && Refused(c, ss[j], es[j], b)
    ensures LastHeard(es, k, m, j, Other(b))
    ensures Time(es[j]) - Time(es[k]) <= if b == Low then c.checkHigh else c.checkLow
    ensures SignalOf(es[m]) >= c.rssiGood && SignalOf(es[m]) >= c.rssiLow
    ensures es[j].signal != NO_SIGNAL ==> es[j].signal < SignalOf(es[m]) + c.rssiDiff
  {
    hide Step, Hears, Measures, LastHeard, AnswerTo, Steered;
    assert Enabled(c, ss[j], es[j]);
    WhoIsRefused(c, ss[j], es[j], b);
    k, m := HeardSince(c, ss, es, j, Other(b));
  }
}
