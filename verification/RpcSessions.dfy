/**
 A request of package/roamd/src/mesh_rpc.c together with the table of sessions it shares with the
 other requests: what they store, evict and forget decides whether the session of a login is still
 there when the call proper needs it.
 */
module RpcSessions {
  import opened Wrappers
  import opened MeshRpc

  /** The request of the device id, and the table. */
  datatype World = World(r: Req, ss: seq<Session>)

  /** The request's own events, and what other requests do to the table. */
  datatype Act =
    | Reply(resp: Resp, now: nat)
    | Broken(tooLarge: bool)
    | Timer(sendable1: bool, sendable2: bool, now: nat)
    | Store(other: string, sid: string, now: nat)
    | Forget(other: string)

  function StoredBy(r: Req, resp: Resp): Option<string> {
    if resp.Result? then Stored(r, resp.items) else None
  }

  function TableAfter(id: string, w: World, a: Act): seq<Session>
    requires w.ss != []
  {
    match a
    case Reply(resp, now) =>
      (match StoredBy(w.r, resp) case None => w.ss case Some(sid) => Set(w.ss, id, sid, now))
    case Broken(_) => w.ss
    case Timer(_, _, _) => if w.r.retryNow then Forgotten(w.ss, id) else w.ss
    case Store(other, sid, now) => Set(w.ss, other, sid, now)
    case Forget(other) => Forgotten(w.ss, other)
  }

  /** The event of the request's machine, found sessions being those of the table. */
  function EventOf(id: string, w: World, a: Act): Option<Event>
    requires w.ss != []
  {
    match a
    case Reply(resp, _) => Some(Eof(resp))
    case Broken(tooLarge) => Some(if tooLarge then TooLarge else Error)
    case Timer(s1, s2, now) =>
      var found := Get(TableAfter(id, w, a), id, now).Some?;
      Some(Fire(Start(found, s1), Start(found, s2)))
    case _ => None
  }

  function After(id: string, w: World, a: Act): (v: World)
    requires w.ss != []
    ensures |v.ss| == |w.ss|
  {
    World(match EventOf(id, w, a) case None => w.r case Some(e) => Step(w.r, e), TableAfter(id, w, a))
  }

  ghost predicate Possible(id: string, w: World, a: Act)
    requires w.ss != []
  {
    && (EventOf(id, w, a).Some? ==> Enabled(w.r, EventOf(id, w, a).value))
    && (a.Store? ==> a.other != "") && (a.Forget? ==> a.other != "")
  }

  /** A request that has just been sent, with a session of the table or with a login for want of one. */
  predicate Sent(id: string, w: World, now: nat) {
    w.r == Started(NEW, Start(Get(w.ss, id, now).Some?, true))
  }

  /** The runs of a request that mesh_rpc_call could start, in any table. */
  ghost predicate Run(id: string, ws: seq<World>, acts: seq<Act>) {
    && id != "" && |ws| == |acts| + 1 && (forall k :: 0 <= k < |ws| ==> ws[k].ss != [])
    && UniqueIds(ws[0].ss) && (exists now: nat :: Sent(id, ws[0], now))
    && forall k :: 0 <= k < |acts| ==> Possible(id, ws[k], acts[k]) && ws[k + 1] == After(id, ws[k], acts[k])
  }

  /** The table's slot for a session of other is taken from id. */
  predicate Evicts(ss: seq<Session>, id: string, other: string)
    requires ss != []
  {
    other != id && Find(ss, other).None? && Find(ss, "").None? && ss[Oldest(ss)].id == id
  }

  /** The act costs id its session: it is replaced by an empty one, evicted or forgotten. */
  predicate Loses(id: string, w: World, a: Act)
    requires w.ss != []
  {
    match a
    case Reply(resp, _) => StoredBy(w.r, resp) == Some("")
    case Store(other, sid, _) => if other == id then sid == "" else Evicts(w.ss, id, other)
    case Forget(other) => other == id
    case _ => false
  }

  predicate Held(ss: seq<Session>, id: string) {
    Find(ss, id).Some? && ss[Find(ss, id).value].sid != ""
  }

  /** The timer after a login fires before the session it brought has expired. */
  predicate InTime(id: string, w: World, a: Act) {
    a.Timer? && w.r.relogin && Held(w.ss, id) ==> a.now - w.ss[Find(w.ss, id).value].taken <= SESSION_TTL
  }

  predicate Keeps(id: string, w: World, a: Act)
    requires w.ss != []
  {
    InTime(id, w, a) && (w.r.relogin || After(id, w, a).r.relogin ==> !Loses(id, w, a))
  }

  /** Between a login and the call proper the session is neither lost nor too old. */
  ghost predicate Kept(id: string, ws: seq<World>, acts: seq<Act>)
    requires Run(id, ws, acts)
  {
    forall k :: 0 <= k < |acts| ==> Keeps(id, ws[k], acts[k])
  }

  lemma SetHolds(ss: seq<Session>, id: string, other: string, sid: string, now: nat)
    requires ss != [] && UniqueIds(ss) && id != "" && other != ""
    requires if other == id then sid != "" else Held(ss, id) && !Evicts(ss, id, other)
    ensures Held(Set(ss, other, sid, now), id)
  {
    var k, t := Slot(ss, other), Set(ss, other, sid, now);
    assert forall j :: 0 <= j < |t| && j != k ==> t[j] == ss[j];
    if other == id {
      assert t[k].id == id;
      assert forall j :: 0 <= j < |t| && j != k ==> t[j].id != id;
    } else {
      var i := Find(ss, id).value;
      assert t[i] == ss[i];
      assert forall j :: 0 <= j < |t| && t[j].id == id ==> j == i;
    }
  }

  lemma SetUnique(ss: seq<Session>, other: string, sid: string, now: nat)
    requires ss != [] && UniqueIds(ss) && other != ""
    ensures UniqueIds(Set(ss, other, sid, now))
  {
    GetAfterSet(ss, other, sid, now, now);
  }

  lemma ForgetHolds(ss: seq<Session>, id: string, other: string)
    requires UniqueIds(ss) && id != "" && other != "" && other != id && Held(ss, id)
    ensures Held(Forgotten(ss, other), id)
  {
    var t, i := Forgotten(ss, other), Find(ss, id).value;
    assert t[i] == ss[i];
    assert forall j :: 0 <= j < |t| && t[j].id == id ==> j == i;
  }

  /** What holds between any two acts of a run in which sessions are kept. */
  ghost predicate Good(id: string, w: World) {
    Inv(w.r) && UniqueIds(w.ss) && w.r.blanks == 0 && (w.r.relogin ==> Held(w.ss, id))
  }

  lemma {:induction false} ScannedStores(r: Req, items: seq<Item>)
    ensures Scanned(r, items).relogin <==> r.relogin || Stored(r, items).Some?
    ensures Scanned(r, items).blanks == r.blanks
    decreases |items|
  {
    if items != [] {
      ScannedStores(r, items[1..]);
    }
  }

  lemma TimerGood(id: string, w: World, a: Act)
    requires id != "" && w.ss != [] && Good(id, w) && a.Timer? && Possible(id, w, a) && InTime(id, w, a)
    ensures Good(id, After(id, w, a))
  {
    hide Inv;
    StepInv(w.r, EventOf(id, w, a).value);
    if w.r.retryNow {
      GetAfterForget(w.ss, id, a.now);
    }
    assert w.r.retryNow ==> !w.r.relogin by {
      NotBoth(w.r);
    }
  }

  lemma NotBoth(r: Req)
    requires Inv(r)
    ensures !(r.retryNow && r.relogin)
  {
  }

  lemma ReplyGood(id: string, w: World, a: Act)
    requires id != "" && w.ss != [] && Good(id, w) && a.Reply? && Possible(id, w, a)
    requires w.r.relogin || After(id, w, a).r.relogin ==> !Loses(id, w, a)
    ensures Good(id, After(id, w, a))
  {
    hide Inv, Scanned, Stored, Held, Set;
    StepInv(w.r, EventOf(id, w, a).value);
    if a.resp.Result? {
      ScannedStores(w.r, a.resp.items);
    }
    match StoredBy(w.r, a.resp)
    case None =>
    case Some(sid) =>
      SetUnique(w.ss, id, sid, a.now);
      SetHolds(w.ss, id, id, sid, a.now);
  }

  lemma OthersGood(id: string, w: World, a: Act)
    requires id != "" && w.ss != [] && Good(id, w) && !a.Reply? && !a.Timer? && Possible(id, w, a)
    requires w.r.relogin ==> !Loses(id, w, a)
    ensures Good(id, After(id, w, a))
  {
    hide Inv, Held, Set, Forgotten, Evicts;
    match a
    case Broken(_) => StepInv(w.r, EventOf(id, w, a).value);
    case Store(other, sid, now) =>
      SetUnique(w.ss, other, sid, now);
      if w.r.relogin {
        SetHolds(w.ss, id, other, sid, now);
      }
    case Forget(other) =>
      ForgetUnique(w.ss, other);
      if w.r.relogin {
        ForgetHolds(w.ss, id, other);
      }
  }

  lemma ForgetUnique(ss: seq<Session>, other: string)
    requires UniqueIds(ss)
    ensures UniqueIds(Forgotten(ss, other))
  {
  }

  lemma {:induction false} KeptGood(id: string, ws: seq<World>, acts: seq<Act>, k: nat)
    requires Run(id, ws, acts) && Kept(id, ws, acts) && k <= |acts|
    ensures Good(id, ws[k])
  {
    hide After, Possible, Loses, InTime, Held;
    if k == 0 {
      StartGood(id, ws, acts);
    } else {
      KeptGood(id, ws, acts, k - 1);
      var w, a := ws[k - 1], acts[k - 1];
      KeptAt(id, ws, acts, k - 1);
      if a.Timer? {
        TimerGood(id, w, a);
      } else if a.Reply? {
        ReplyGood(id, w, a);
      } else {
        OthersGood(id, w, a);
      }
    }
  }

  lemma KeptAt(id: string, ws: seq<World>, acts: seq<Act>, k: nat)
    requires Run(id, ws, acts) && Kept(id, ws, acts) && k < |acts|
    ensures Keeps(id, ws[k], acts[k])
    ensures Possible(id, ws[k], acts[k]) && ws[k + 1] == After(id, ws[k], acts[k])
  {
  }

  lemma StartGood(id: string, ws: seq<World>, acts: seq<Act>)
    requires Run(id, ws, acts)
    ensures Good(id, ws[0])
  {
  }

  /**
   In every run in which the session of a login is neither replaced by an empty one, evicted,
   forgotten nor expired before the call proper uses it, at most four HTTP requests are made, and the
   callback fires exactly once, when the request is done.
   */
  lemma AtMostFourRequests(id: string, ws: seq<World>, acts: seq<Act>)
    requires Run(id, ws, acts) && Kept(id, ws, acts)
    ensures var r := ws[|acts|].r;
      r.blanks == 0 && r.http <= 4 && r.cbs == (if r.done then 1 else 0) && (!r.done ==> r.open || r.armed)
  {
    KeptGood(id, ws, acts, |acts|);
  }

  // ---------------------------------------------------------------- the bound is reached

  lemma RunPush(id: string, ws: seq<World>, acts: seq<Act>, a: Act) returns (vs: seq<World>, bs: seq<Act>)
    requires Run(id, ws, acts) && Possible(id, ws[|acts|], a)
    ensures Run(id, vs, bs) && vs == ws + [After(id, ws[|acts|], a)] && bs == acts + [a]
  {
    hide After, Possible, Sent;
    vs, bs := ws + [After(id, ws[|acts|], a)], acts + [a];
    var now: nat :| Sent(id, ws[0], now);
    assert Sent(id, vs[0], now);
    forall k | 0 <= k < |bs|
      ensures Possible(id, vs[k], bs[k]) && vs[k + 1] == After(id, vs[k], bs[k])
    {
      if k < |acts| {
        assert Possible(id, ws[k], acts[k]) && ws[k + 1] == After(id, ws[k], acts[k]);
      }
    }
  }

  /** The answer to a login that brings a session. */
  function Login(sid: string): Act { Reply(Result([Table("", Some(sid))]), 1) }

  const FIRE: Act := Timer(true, true, 1)

  /** The second login is under way, and n sessions have been blank. */
  ghost predicate SecondLogin(w: World, n: nat) {
    && w.r == Req(true, true, false, false, false, None, true, false, false, 3 + n, 0, 2 + n, n)
    && w.ss != [] && UniqueIds(w.ss)
  }

  /** A login, the call, its rejection, and the login again. */
  lemma Opening(id: string) returns (ws: seq<World>, acts: seq<Act>)
    requires id != ""
    ensures Run(id, ws, acts) && SecondLogin(ws[|acts|], 0)
  {
    var ss := seq(SESSIONS, _ => Session("", "", 0));
    var w0 := World(Started(NEW, Start(false, true)), ss);
    NoSession(id);
    assert Sent(id, w0, 1);
    ws, acts := [w0], [];
    var w1 := After(id, w0, Login("s"));
    GetAfterSet(ss, id, "s", 1, 1);
    assert w1.r == w0.r.(relogin := true, armed := true) && Get(w1.ss, id, 1) == Some("s") && UniqueIds(w1.ss);
    var w2 := After(id, w1, FIRE);
    assert w2.r == Req(false, false, false, false, false, None, true, false, false, 2, 0, 1, 0) && w2.ss == w1.ss;
    var w3 := After(id, w2, Reply(NoResult, 1));
    assert w3 == World(w2.r.(retryNow := true, armed := true), w2.ss);
    var w4 := After(id, w3, FIRE);
    GetAfterForget(w3.ss, id, 1);
    assert SecondLogin(w4, 0);
    hide After, SecondLogin, Run;
    ws, acts := FourSteps(id, ws, acts, Login("s"), FIRE, Reply(NoResult, 1), FIRE);
  }

  lemma NoSession(id: string)
    requires id != ""
    ensures var ss := seq(SESSIONS, _ => Session("", "", 0)); UniqueIds(ss) && Get(ss, id, 1) == None
  {
  }

  lemma FourSteps(id: string, ws: seq<World>, acts: seq<Act>, a: Act, b: Act, c: Act, d: Act)
      returns (vs: seq<World>, bs: seq<Act>)
    requires Run(id, ws, acts) && ws[|acts|].ss != [] && Possible(id, ws[|acts|], a)
    requires var w := After(id, ws[|acts|], a); Possible(id, w, b) && Possible(id, After(id, w, b), c)
    requires Possible(id, After(id, After(id, After(id, ws[|acts|], a), b), c), d)
    ensures Run(id, vs, bs) && |bs| == |acts| + 4
    ensures vs[|bs|] == After(id, After(id, After(id, After(id, ws[|acts|], a), b), c), d)
  {
    hide After, Possible;
    vs, bs := RunPush(id, ws, acts, a);
    vs, bs := RunPush(id, vs, bs, b);
    vs, bs := RunPush(id, vs, bs, c);
    vs, bs := RunPush(id, vs, bs, d);
  }

  lemma BlankStep(id: string, w: World, n: nat)
    requires id != "" && SecondLogin(w, n)
    ensures Possible(id, w, Login("")) && Possible(id, After(id, w, Login("")), FIRE)
    ensures SecondLogin(After(id, After(id, w, Login("")), FIRE), n + 1)
  {
    var v := After(id, w, Login(""));
    GetAfterSet(w.ss, id, "", 1, 1);
    assert v.r == w.r.(relogin := true, armed := true) && Get(v.ss, id, 1) == None;
  }

  /** n sessions in a row that are found blank in the table when the call proper needs them. */
  lemma {:induction false} BlankRounds(id: string, n: nat) returns (ws: seq<World>, acts: seq<Act>)
    requires id != ""
    ensures Run(id, ws, acts) && SecondLogin(ws[|acts|], n)
  {
    if n == 0 {
      ws, acts := Opening(id);
    } else {
      ws, acts := BlankRounds(id, n - 1);
      BlankStep(id, ws[|acts|], n - 1);
      hide After, Possible, SecondLogin;
      ws, acts := RunPush(id, ws, acts, Login(""));
      ws, acts := RunPush(id, ws, acts, FIRE);
    }
  }

  /**
   The bound of four HTTP requests and one more for each unusable session is reached, with any
   number of them: a device that answers logins with empty sessions is asked without end.
   */
  lemma BlankSessions(id: string, n: nat) returns (ws: seq<World>, acts: seq<Act>)
    requires id != ""
    ensures Run(id, ws, acts) && ws[|acts|].r.http == 4 + n && ws[|acts|].r.blanks == n
  {
    ws, acts := BlankRounds(id, n);
    var w := ws[|acts|];
    var v := After(id, w, Login("s"));
    GetAfterSet(w.ss, id, "s", 1, 1);
    assert v.r == w.r.(relogin := true, armed := true) && Get(v.ss, id, 1) == Some("s");
    var u := After(id, v, FIRE);
    assert u.r.http == 4 + n && u.r.blanks == n;
    hide After;
    ws, acts := RunPush(id, ws, acts, Login("s"));
    ws, acts := RunPush(id, ws, acts, FIRE);
  }
}
