/** The decisions of package/roamd/src/policy.c, and the controller's requests in mesh_node.c. */
module Policy {
  import opened Wrappers
  import opened RoamConfig
  import opened Station

  const RETRY_INTERVAL: nat := 5000
  const BEACON_BUDGET: nat := 4

  datatype Kind = Probe | Auth | Assoc

  function PreferredBand(c: Config): Band {
    if c.prefer == PreferLow then Low else High
  }

  function CheckTime(c: Config, b: Band): nat {
    if b == Low then c.checkLow else c.checkHigh
  }

  predicate InfoFresh(c: Config, i: Info, now: nat) {
    i.present && i.signal != NO_SIGNAL && now - i.seen <= c.ageTime
  }

  // ---------------------------------------------------------------- refusals

  /** What an attempt meets: the access point, whether it is managed, whether it has a pair, the rule. */
  datatype Attempt = Attempt(bss: Bss, managed: bool, paired: bool, verdict: Verdict, kind: Kind, now: nat)

  /** The part of roam_policy_allow that does not depend on past refusals: Some when it decides. */
  function Ruled(c: Config, a: Attempt): Option<bool> {
    if !c.enabled || !a.managed then Some(true)
    else if a.verdict != AdmitOk then Some(false)
    else if a.kind == Assoc || !a.paired then Some(true)
    else if !c.bandSteering || c.prefer == NoBand || !c.denyProbe then Some(true)
    else if a.bss.band == PreferredBand(c) then Some(true)
    else None
  }

  /** The client was heard well enough on the preferred band to be sent there. */
  predicate Lured(c: Config, s: Sta, b: Band, now: nat) {
    var want := PreferredBand(c);
    var pref, cur := On(s, want), On(s, b);
    && pref.present && now - pref.seen <= CheckTime(c, want)
    && pref.signal != NO_SIGNAL && pref.signal >= c.rssiLow && pref.signal >= c.rssiGood
    && !(cur.signal != NO_SIGNAL && cur.signal - pref.signal >= c.rssiDiff)
  }

  datatype Answer = Answer(allowed: bool, sta: Sta)

  function Allow(c: Config, s: Sta, a: Attempt): Answer {
    var b, cur := a.bss.band, On(s, a.bss.band);
    match Ruled(c, a)
    case Some(ok) => Answer(ok, s)
    case None =>
      if a.now < cur.allowUntil then Answer(true, s)
      else if !Lured(c, s, b, a.now) then Answer(true, Put(s, b, cur.(denyStart := 0)))
      else
        var start := if cur.denyStart == 0 then a.now else cur.denyStart;
        if a.now - start < c.denyTime then Answer(false, Put(s, b, cur.(denyStart := start)))
        else Answer(true, Put(s, b, cur.(denyStart := 0, allowUntil := a.now + c.ageTime)))
  }

  /** t is s but for the two times of refusals on band b. */
  predicate SameButRefusals(s: Sta, t: Sta, b: Band) {
    t == Put(s, b, On(s, b).(denyStart := On(t, b).denyStart, allowUntil := On(t, b).allowUntil))
  }

  /** What a caller may conclude from the answer: a refusal of a client without a rule is one of a series
      shorter than the deny time that the record remembers the start of, outside any time of grace;
      and when the client is let in no series is left running, unless it was not judged at all. */
  predicate Judged(c: Config, s: Sta, a: Attempt, ok: bool, t: Sta) {
    var was, now := On(s, a.bss.band), On(t, a.bss.band);
    && SameButRefusals(s, t, a.bss.band)
    && (!ok && a.verdict == AdmitOk && a.now > 0 ==>
          a.kind != Assoc && a.bss.band == Other(PreferredBand(c)) && a.now >= was.allowUntil
          && now.denyStart > 0 && a.now - now.denyStart < c.denyTime)
    && (ok ==> now.denyStart == 0 || (now == was && (Ruled(c, a).Some? || a.now < was.allowUntil)))
  }

  lemma AllowJudges(c: Config, s: Sta, a: Attempt)
    ensures Judged(c, s, a, Allow(c, s, a).allowed, Allow(c, s, a).sta)
  {
    hide Lured, Ruled;
    RuledMeans(c, a);
    hide PreferredBand;
    PutOn(s, a.bss.band);
  }

  lemma RuledMeans(c: Config, a: Attempt)
    ensures Ruled(c, a) == Some(false) ==> a.verdict != AdmitOk
    ensures Ruled(c, a) == None ==> a.kind != Assoc && a.bss.band == Other(PreferredBand(c))
  {
  }

  lemma PutOn(s: Sta, b: Band)
    ensures Put(s, b, On(s, b)) == s && forall i :: On(Put(s, b, i), b) == i
  {
  }

  // ---------------------------------------------------------------- who is refused

  /** Steering has a say in the attempt: no association, at a paired access point of the band not preferred. */
  predicate Steered(c: Config, a: Attempt) {
    && c.enabled && c.bandSteering && c.denyProbe && a.managed && a.paired && a.kind != Assoc
    && ((c.prefer == PreferHigh && a.bss.band == Low) || (c.prefer == PreferLow && a.bss.band == High))
  }

  /** Lately heard well on the other band, and not better here by rssi_diff or more. */
  predicate Tempted(c: Config, a: Attempt, here: int, there: Info) {
    && there.present && a.now - there.seen <= (if a.bss.band == Low then c.checkHigh else c.checkLow)
    && there.signal != NO_SIGNAL && there.signal >= c.rssiLow && there.signal >= c.rssiGood
    && (here == NO_SIGNAL || here < there.signal + c.rssiDiff)
  }

  /** A client without a rule is refused: outside its time of grace, in a series shorter than the deny time. */
  predicate Withheld(c: Config, s: Sta, a: Attempt) {
    var cur := On(s, a.bss.band);
    && Steered(c, a) && a.now >= cur.allowUntil && Tempted(c, a, cur.signal, On(s, Other(a.bss.band)))
    && if cur.denyStart == 0 then c.denyTime > 0 else a.now - cur.denyStart < c.denyTime
  }

  lemma AllowIff(c: Config, s: Sta, a: Attempt)
    ensures Allow(c, s, a).allowed <==>
      !c.enabled || !a.managed || (a.verdict == AdmitOk && !Withheld(c, s, a))
  {
    hide Put;
  }

  /** What an attempt leaves behind: a series goes on or ends, and ends in a time of grace when it was long enough. */
  lemma AllowLeaves(c: Config, s: Sta, a: Attempt)
    requires a.verdict == AdmitOk
    ensures var cur := On(s, a.bss.band);
      var next := On(Allow(c, s, a).sta, a.bss.band);
      && next.allowUntil ==
         (if Steered(c, a) && a.now >= cur.allowUntil && Tempted(c, a, cur.signal, On(s, Other(a.bss.band)))
             && !Withheld(c, s, a) then a.now + c.ageTime else cur.allowUntil)
      && next.denyStart ==
         (if !Steered(c, a) || a.now < cur.allowUntil then cur.denyStart
          else if !Withheld(c, s, a) then 0 else if cur.denyStart == 0 then a.now else cur.denyStart)
  {
  }

  method PolicyAllow(c: Config, s: Client, a: Attempt) returns (ok: bool)
    modifies s
    ensures Answer(ok, s.Now()) == Allow(c, old(s.Now()), a)
    ensures Judged(c, old(s.Now()), a, ok, s.Now())
    ensures ok <==> !c.enabled || !a.managed || (a.verdict == AdmitOk && !Withheld(c, old(s.Now()), a))
  {
    hide Judged, Withheld;
    AllowIff(c, s.Now(), a);
    AllowJudges(c, s.Now(), a);
    if !c.enabled || !a.managed {
      return true;
    }
    if a.verdict != AdmitOk {
      return false;
    }
    if a.kind == Assoc || !a.paired {
      return true;
    }
    if !c.bandSteering || c.prefer == NoBand || !c.denyProbe {
      return true;
    }
    var want := PreferredBand(c);
    if a.bss.band == want {
      return true;
    }
    ok := PolicyRefuse(c, s, a, want);
  }

  /** The rest of roam_policy_allow, on the band that is not preferred. */
  method PolicyRefuse(c: Config, s: Client, a: Attempt, want: Band) returns (ok: bool)
    requires Ruled(c, a) == None && want == PreferredBand(c)
    modifies s
    ensures Answer(ok, s.Now()) == Allow(c, old(s.Now()), a)
  {
    var pref := s.Band(want);
    var cur := s.Band(a.bss.band);
    if a.now < cur.allowUntil {
      return true;
    }
    if !pref.present || a.now - pref.seen > CheckTime(c, want)
       || pref.signal == NO_SIGNAL || pref.signal < c.rssiLow || pref.signal < c.rssiGood
       || (cur.signal != NO_SIGNAL && cur.signal - pref.signal >= c.rssiDiff) {
      s.SetBand(a.bss.band, cur.(denyStart := 0));
      return true;
    }
    if cur.denyStart == 0 {
      cur := cur.(denyStart := a.now);
    }
    if a.now - cur.denyStart < c.denyTime {
      s.SetBand(a.bss.band, cur);
      return false;
    }
    s.SetBand(a.bss.band, cur.(denyStart := 0, allowUntil := a.now + c.ageTime));
    return true;
  }

  // ---------------------------------------------------------------- requests to move

  predicate CanSteer(c: Config, s: Sta, now: nat) {
    s.steerCount < c.steerRetries && (s.lastSteer == 0 || now - s.lastSteer >= RETRY_INTERVAL)
  }

  /** A request is counted against the connection, and it is the last one. */
  function Counted(s: Sta, now: nat): Sta {
    s.(lastSteer := now, steerCount := s.steerCount + 1)
  }

  function Asked(s: Sta, from: Band, now: nat): Sta {
    Counted(s, now).(steerFrom := from)
  }

  function Kicked(s: Sta, from: Band, now: nat): Sta {
    Reset(Asked(s, from, now))
  }

  /** sta_should_leave on two signals, where there is None without a fresh one. */
  predicate Leaves(c: Config, here: int, there: Option<int>, band: Band, ht: bool) {
    if here != NO_SIGNAL && here < c.kickRssi then true
    else if there.None? then false
    else if here != NO_SIGNAL && there.value - here >= c.rssiDiff then true
    else if band == PreferredBand(c) then here != NO_SIGNAL && here < c.rssiLow && there.value > here
    else if PreferredBand(c) == High && !ht then false
    else there.value >= c.rssiGood && (here == NO_SIGNAL || here - there.value < c.rssiDiff)
  }

  predicate ShouldLeave(c: Config, s: Sta, from: Bss, to: Bss, now: nat) {
    var far := On(s, to.band);
    Leaves(c, On(s, from.band).signal, if InfoFresh(c, far, now) then Some(far.signal) else None,
           from.band, On(s, from.band).ht)
  }

  predicate BeaconDue(c: Config, s: Sta, to: Bss, now: nat, budget: nat) {
    && s.rrm && c.neighborReports && to.opClass != 0
    && s.silent < c.steerRetries && now - s.lastBeaconReq >= c.beaconReqInterval && budget > 0
  }

  datatype Act = Stay | Btm | Kick

  /** What one pass does to one client of the access point. */
  datatype Turn = Turn(sta: Sta, budget: nat, beacon: bool, act: Act)

  /** A pass over the clients of from: the time, the pair to move to, and the verdicts of the rules. */
  datatype Pass = Pass(c: Config, now: nat, from: Bss, to: Option<Bss>, verdict: (nat, Band) -> Verdict)

  predicate Steers(p: Pass) {
    p.c.bssTransition && p.c.bandSteering && p.c.prefer != NoBand && p.to.Some?
  }

  function Evicted(p: Pass, s: Sta): Sta {
    if s.bss == Some(p.from) && p.verdict(s.addr, p.from.band) != AdmitOk then Reset(s) else s
  }

  /** The client is left alone in this pass. */
  predicate Spared(p: Pass, s: Sta)
    requires p.to.Some?
  {
    || s.bss != Some(p.from)
    || p.verdict(s.addr, p.to.value.band) != AdmitOk
    || p.now - s.connectedSince < p.c.holdTime
    || (s.giveUpUntil != 0 && p.now < s.giveUpUntil)
  }

  function Probed(p: Pass, s: Sta, budget: nat): Turn
    requires p.to.Some?
  {
    var to := p.to.value;
    if !InfoFresh(p.c, On(s, to.band), p.now) && BeaconDue(p.c, s, to, p.now, budget)
    then Turn(s.(lastBeaconReq := p.now, silent := s.silent + 1), budget - 1, true, Stay)
    else Turn(s, budget, false, Stay)
  }

  /** A client within its limits: measured where nothing fresh is known, and asked where it should leave. */
  function Urged(p: Pass, s: Sta, budget: nat): Turn
    requires p.to.Some?
  {
    var r := Probed(p, s, budget);
    if !ShouldLeave(p.c, r.sta, p.from, p.to.value, p.now) then r
    else if r.sta.btm then r.(sta := Asked(r.sta, p.from.band, p.now), act := Btm)
    else if p.c.allowKick then r.(sta := Kicked(r.sta, p.from.band, p.now), act := Kick)
    else r
  }

  function Decided(p: Pass, s: Sta, budget: nat): Turn
    requires p.to.Some?
  {
    if Spared(p, s) then Turn(s, budget, false, Stay)
    else
      var t := s.(giveUpUntil := 0);
      if !CanSteer(p.c, t, p.now) then Turn(t, budget, false, Stay) else Urged(p, t, budget)
  }

  /** A request to move was within the limits and counts against them; what was heard stays as it was, and a
      client that is left alone keeps its counts. */
  predicate WithinLimits(c: Config, s: Sta, now: nat, act: Act, t: Sta) {
    && t.low == s.low && t.high == s.high && t.flapCount == s.flapCount
    && (if act == Stay then t.lastSteer == s.lastSteer && t.steerCount == s.steerCount && t.bss == s.bss
        else s.bss.Some? && s.steerCount < c.steerRetries && (s.lastSteer == 0 || now - s.lastSteer >= RETRY_INTERVAL)
             && t.lastSteer == now && t.steerCount == s.steerCount + 1 <= c.steerRetries
             && (act == Kick <==> t.bss.None?) && (act == Kick ==> c.allowKick && !s.btm) && (act == Btm ==> s.btm))
  }

  lemma DecidedWithinLimits(p: Pass, s: Sta, budget: nat)
    requires p.to.Some?
    ensures var turn := Decided(p, s, budget);
            WithinLimits(p.c, s, p.now, turn.act, turn.sta) && turn.budget + (if turn.beacon then 1 else 0) == budget
    ensures Decided(p, s, budget).act != Stay ==> s.bss == Some(p.from) && p.now >= s.giveUpUntil
  {
    hide Leaves, BeaconDue;
  }

  lemma CommandedWithinLimits(c: Config, s: Sta, now: nat)
    ensures WithinLimits(c, s, now, Commanded(c, s, now).act, Commanded(c, s, now).sta)
  {
  }

  method PolicyBeaconRequest(c: Config, s: Client, to: Bss, now: nat, budget: nat) returns (left: nat)
    modifies s`lastBeaconReq, s`silent
    ensures var due := BeaconDue(c, old(s.Now()), to, now, budget);
            && left == (if due then budget - 1 else budget)
            && s.Now() == if due then old(s.Now()).(lastBeaconReq := now, silent := old(s.silent) + 1)
                          else old(s.Now())
  {
    if !s.rrm || !c.neighborReports || to.opClass == 0 {
      return budget;
    }
    if s.silent >= c.steerRetries {
      return budget;
    }
    if now - s.lastBeaconReq < c.beaconReqInterval {
      return budget;
    }
    if budget == 0 {
      return budget;
    }
    s.lastBeaconReq := now;
    s.silent := s.silent + 1;
    return budget - 1;
  }

  method PolicyBtm(s: Client, from: Bss, now: nat)
    modifies s
    ensures s.Now() == Asked(old(s.Now()), from.band, now)
  {
    s.lastSteer := now;
    s.steerFrom := from.band;
    s.steerCount := s.steerCount + 1;
  }

  method PolicyKick(s: Client, from: Bss, now: nat)
    modifies s
    ensures s.Now() == Kicked(old(s.Now()), from.band, now)
  {
    s.lastSteer := now;
    s.steerFrom := from.band;
    s.steerCount := s.steerCount + 1;
    s.StaReset();
  }

  /** The body of the second loop of roam_policy_run. */
  method PolicyTurn(p: Pass, s: Client, budget: nat) returns (left: nat, ghost turn: Turn)
    requires p.to.Some?
    modifies s
    ensures turn == Decided(p, old(s.Now()), budget) && s.Now() == turn.sta && left == turn.budget
    ensures WithinLimits(p.c, old(s.Now()), p.now, turn.act, s.Now())
    ensures left + (if turn.beacon then 1 else 0) == budget
  {
    hide Leaves, WithinLimits, Urged;
    DecidedWithinLimits(p, s.Now(), budget);
    var target := p.to.value;
    left, turn := budget, Decided(p, s.Now(), budget);
    if s.bss != Some(p.from) {
      return;
    }
    if p.verdict(s.addr, target.band) != AdmitOk {
      return;
    }
    if p.now - s.connectedSince < p.c.holdTime {
      return;
    }
    if s.giveUpUntil != 0 {
      if p.now < s.giveUpUntil {
        return;
      }
      s.giveUpUntil := 0;
    }
    if !CanSteer(p.c, s.Now(), p.now) {
      return;
    }
    left := PolicyUrge(p, s, left);
  }

  /** The rest of the loop's body, for a client within its limits. */
  method PolicyUrge(p: Pass, s: Client, budget: nat) returns (left: nat)
    requires p.to.Some?
    modifies s
    ensures var turn := Urged(p, old(s.Now()), budget); s.Now() == turn.sta && left == turn.budget
  {
    hide Leaves;
    var target := p.to.value;
    left := budget;
    if !InfoFresh(p.c, s.Band(target.band), p.now) {
      left := PolicyBeaconRequest(p.c, s, target, p.now, left);
    }
    if !ShouldLeave(p.c, s.Now(), p.from, target, p.now) {
      return;
    }
    if !s.btm {
      if p.c.allowKick {
        PolicyKick(s, p.from, p.now);
      }
      return;
    }
    PolicyBtm(s, p.from, p.now);
  }

  /** mesh_node_steer: the controller asks, through the same limits. */
  function Commanded(c: Config, s: Sta, now: nat): Turn {
    if s.bss.None? || !CanSteer(c, s, now) then Turn(s, 0, false, Stay)
    else if s.btm then Turn(Counted(s, now), 0, false, Btm)
    else if c.allowKick then Turn(Kicked(s, s.bss.value.band, now), 0, false, Kick)
    else Turn(s, 0, false, Stay)
  }

  /** Whether the controller's request was carried out; no client means an unknown address. */
  method MeshNodeSteer(c: Config, s: Client?, now: nat) returns (done: bool, ghost act: Act)
    modifies s
    ensures s == null ==> !done
    ensures s != null ==>
      var turn := Commanded(c, old(s.Now()), now);
      s.Now() == turn.sta && act == turn.act && (done <==> turn.act != Stay)
    ensures s != null ==> WithinLimits(c, old(s.Now()), now, act, s.Now())
  {
    hide WithinLimits;
    if s != null {
      CommandedWithinLimits(c, s.Now(), now);
    }
    act := Stay;
    if s == null || s.bss.None? || !CanSteer(c, s.Now(), now) {
      return false, act;
    }
    if !s.btm {
      if !c.allowKick {
        return false, act;
      }
      act := Kick;
      PolicyKick(s, s.bss.value, now);
      return true, act;
    }
    act := Btm;
    s.lastSteer := now;
    s.steerCount := s.steerCount + 1;
    return true, act;
  }

  // ---------------------------------------------------------------- a pass over all clients

  function EvictedAll(p: Pass, ss: seq<Sta>): (t: seq<Sta>)
    ensures |t| == |ss|
  {
    seq(|ss|, i requires 0 <= i < |ss| => Evicted(p, ss[i]))
  }

  /** The turns of the clients in the order of the table, each with the budget the others left. */
  function Turns(p: Pass, ss: seq<Sta>, budget: nat): (t: seq<Turn>)
    requires p.to.Some?
    ensures |t| == |ss|
  {
    if ss == [] then []
    else
      var n := |ss| - 1;
      var t := Turns(p, ss[..n], budget);
      t + [Decided(p, ss[n], Left(t, budget))]
  }

  function Left(t: seq<Turn>, budget: nat): nat {
    if t == [] then budget else t[|t| - 1].budget
  }

  /** The table after a pass. */
  function Passed(p: Pass, ss: seq<Sta>): (t: seq<Sta>)
    ensures |t| == |ss|
  {
    if !p.c.enabled then ss
    else
      var e := EvictedAll(p, ss);
      if !Steers(p) then e
      else
        var turns := Turns(p, e, BEACON_BUDGET);
        seq(|ss|, i requires 0 <= i < |ss| => turns[i].sta)
  }

  ghost function Table(clients: seq<Client>): (ss: seq<Sta>)
    reads clients
    ensures |ss| == |clients|
  {
    seq(|clients|, i requires 0 <= i < |clients| reads clients => clients[i].Now())
  }

  ghost predicate Separate(clients: seq<Client>) {
    forall i, j :: 0 <= i < j < |clients| ==> clients[i] != clients[j]
  }

  method EvictAll(p: Pass, clients: seq<Client>)
    requires Separate(clients)
    modifies clients
    ensures Table(clients) == EvictedAll(p, old(Table(clients)))
  {
    ghost var was := Table(clients);
    for i := 0 to |clients|
      invariant forall k :: 0 <= k < i ==> clients[k].Now() == Evicted(p, was[k])
      invariant forall k :: i <= k < |clients| ==> clients[k].Now() == was[k]
    {
      if clients[i].bss == Some(p.from) && p.verdict(clients[i].addr, p.from.band) != AdmitOk {
        clients[i].StaReset();
      }
    }
  }

  method SteerAll(p: Pass, clients: seq<Client>)
    requires Separate(clients) && p.to.Some?
    modifies clients
    ensures forall i :: 0 <= i < |clients| ==>
      clients[i].Now() == Turns(p, old(Table(clients)), BEACON_BUDGET)[i].sta
  {
    hide Decided;
    var budget := BEACON_BUDGET;
    ghost var was := Table(clients);
    ghost var turns := [];
    for i := 0 to |clients|
      invariant turns == Turns(p, was[..i], BEACON_BUDGET) && budget == Left(turns, BEACON_BUDGET)
      invariant forall k :: 0 <= k < i ==> clients[k].Now() == turns[k].sta
      invariant forall k :: i <= k < |clients| ==> clients[k].Now() == was[k]
    {
      ghost var turn;
      assert was[..i + 1][..i] == was[..i];
      budget, turn := PolicyTurn(p, clients[i], budget);
      turns := turns + [turn];
    }
    assert was[..|clients|] == was;
  }

  method PolicyRun(p: Pass, clients: seq<Client>)
    requires Separate(clients)
    modifies clients
    ensures Table(clients) == Passed(p, old(Table(clients)))
  {
    hide Turns, Evicted;
    if !p.c.enabled {
      return;
    }
    EvictAll(p, clients);
    if !p.c.bssTransition || !p.c.bandSteering || p.c.prefer == NoBand {
      return;
    }
    if p.to.None? {
      return;
    }
    SteerAll(p, clients);
  }

  function Beacons(t: seq<Turn>): nat {
    if t == [] then 0 else Beacons(t[..|t| - 1]) + if t[|t| - 1].beacon then 1 else 0
  }

  lemma {:induction false} BeaconsLeft(p: Pass, ss: seq<Sta>, budget: nat)
    requires p.to.Some?
    ensures var t := Turns(p, ss, budget); Beacons(t) + Left(t, budget) == budget
  {
    hide ShouldLeave, BeaconDue, Spared, CanSteer;
    if ss != [] {
      var n := |ss| - 1;
      BeaconsLeft(p, ss[..n], budget);
      var t := Turns(p, ss, budget);
      assert t[..n] == Turns(p, ss[..n], budget);
    }
  }

  /** One pass sends at most four beacon requests, however many clients there are. */
  lemma AtMostFourBeacons(p: Pass, ss: seq<Sta>)
    requires p.to.Some?
    ensures Beacons(Turns(p, ss, BEACON_BUDGET)) <= 4
  {
    BeaconsLeft(p, ss, BEACON_BUDGET);
  }
}
