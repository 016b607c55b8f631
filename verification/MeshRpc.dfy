/**
 The request machine of package/roamd/src/mesh_rpc.c: sessions that are reused between calls, a
 login when there is none, one retry with a new login when a call fails, and the callback.
 What the network answers, and whether a request can be started, is up to the environment.
 */
module MeshRpc {
  import opened Wrappers

  const SESSION_TTL: nat := 240000
  const SESSIONS: nat := 16

  // ---------------------------------------------------------------- sessions

  datatype Session = Session(id: string, sid: string, taken: nat)

  /** The slot that holds id. */
  function Find(ss: seq<Session>, id: string): (r: Option<nat>)
    ensures r.Some? ==> r.value < |ss| && ss[r.value].id == id && forall j :: 0 <= j < r.value ==> ss[j].id != id
    ensures r.None? ==> forall j :: 0 <= j < |ss| ==> ss[j].id != id
  {
    if ss == [] then None
    else if ss[0].id == id then Some(0)
    else match Find(ss[1..], id) case None => None case Some(i) => Some(i + 1)
  }

  /** The first slot among those taken longest ago. */
  function Oldest(ss: seq<Session>): (k: nat)
    requires ss != []
    ensures k < |ss| && forall j :: 0 <= j < |ss| ==> ss[k].taken <= ss[j].taken
    ensures forall j :: 0 <= j < k ==> ss[k].taken < ss[j].taken
  {
    var n := |ss| - 1;
    if n == 0 then 0 else
    var k := Oldest(ss[..n]);
    assert ss[k] == ss[..n][k] && forall j :: 0 <= j < n ==> ss[..n][j] == ss[j];
    if ss[n].taken < ss[k].taken then n else k
  }

  /** The slot a new session goes to: its id's own, or a free one, or the oldest. */
  function Slot(ss: seq<Session>, id: string): (k: nat)
    requires ss != []
    ensures k < |ss|
  {
    match (Find(ss, id), Find(ss, ""))
    case (Some(i), _) => i
    case (None, Some(i)) => i
    case (None, None) => Oldest(ss)
  }

  function Set(ss: seq<Session>, id: string, sid: string, now: nat): seq<Session>
    requires ss != []
  {
    ss[Slot(ss, id) := Session(id, sid, now)]
  }

  function Get(ss: seq<Session>, id: string, now: nat): Option<string> {
    match Find(ss, id)
    case Some(i) => if ss[i].sid == "" || now - ss[i].taken > SESSION_TTL then None else Some(ss[i].sid)
    case None => None
  }

  function Forgotten(ss: seq<Session>, id: string): seq<Session> {
    match Find(ss, id)
    case Some(i) => ss[i := ss[i].(id := "")]
    case None => ss
  }

  ghost predicate UniqueIds(ss: seq<Session>) {
    forall i, j :: 0 <= i < j < |ss| && ss[i].id != "" ==> ss[i].id != ss[j].id
  }

  /** A stored session is found again until it expires, unless it is empty. */
  lemma GetAfterSet(ss: seq<Session>, id: string, sid: string, now: nat, later: nat)
    requires ss != [] && UniqueIds(ss) && id != "" && now <= later
    ensures UniqueIds(Set(ss, id, sid, now))
    ensures Get(Set(ss, id, sid, now), id, later) ==
            if sid == "" || later - now > SESSION_TTL then None else Some(sid)
  {
    var k, t := Slot(ss, id), Set(ss, id, sid, now);
    assert t[k].id == id;
    assert forall j :: 0 <= j < |t| && j != k ==> t[j] == ss[j];
    assert forall j :: 0 <= j < |t| && j != k ==> t[j].id != id;
  }

  /** Storing a session costs another id its own only when the table is full and its own is the oldest. */
  lemma GetOther(ss: seq<Session>, id: string, sid: string, now: nat, other: string, later: nat)
    requires ss != [] && UniqueIds(ss) && id != "" && other != "" && other != id
    ensures Get(Set(ss, id, sid, now), other, later) ==
            if Find(ss, id).None? && Find(ss, "").None? && ss[Oldest(ss)].id == other then None
            else Get(ss, other, later)
  {
    var k, t := Slot(ss, id), Set(ss, id, sid, now);
    assert forall j :: 0 <= j < |t| && j != k ==> t[j] == ss[j];
    match Find(ss, other)
    case None =>
      assert forall j :: 0 <= j < |t| ==> t[j].id != other;
    case Some(i) =>
      if i == k {
        assert forall j :: 0 <= j < |t| ==> t[j].id != other;
      } else {
        assert t[i].id == other;
      }
  }

  lemma GetAfterForget(ss: seq<Session>, id: string, now: nat)
    requires UniqueIds(ss) && id != ""
    ensures UniqueIds(Forgotten(ss, id)) && Get(Forgotten(ss, id), id, now) == None
  {
    var t := Forgotten(ss, id);
    match Find(ss, id)
    case None =>
    case Some(i) =>
      assert forall j :: 0 <= j < |t| && j != i ==> t[j] == ss[j];
      assert forall j :: 0 <= j < |t| ==> t[j].id != id;
  }

  class SessionTable {
    const slots: array<Session>

    constructor ()
      ensures slots.Length == SESSIONS && fresh(slots)
      ensures forall i :: 0 <= i < SESSIONS ==> slots[i] == Session("", "", 0)
    {
      slots := new Session[SESSIONS](_ => Session("", "", 0));
    }

    /** The search of session_slot: the slot that holds id, or -1 and the slot a new session would get. */
    method Search(id: string) returns (k: int, spare: nat)
      requires slots.Length == SESSIONS
      ensures k == match Find(slots[..], id) case Some(i) => i case None => -1
      ensures k < 0 ==> spare == Slot(slots[..], id)
    {
      var free, oldest := -1, 0;
      for i := 0 to SESSIONS
        invariant forall j :: 0 <= j < i ==> slots[j].id != id
        invariant if free < 0 then forall j :: 0 <= j < i ==> slots[j].id != ""
                  else free < i && slots[free].id == "" && forall j :: 0 <= j < free ==> slots[j].id != ""
        invariant 0 <= oldest <= i && oldest < SESSIONS
        invariant forall j :: 0 <= j < i ==> slots[oldest].taken <= slots[j].taken
        invariant forall j :: 0 <= j < oldest ==> slots[oldest].taken < slots[j].taken
      {
        if slots[i].id == id {
          return i, 0;
        }
        if free < 0 && slots[i].id == "" {
          free := i;
        }
        if slots[i].taken < slots[oldest].taken {
          oldest := i;
        }
      }
      return -1, if free < 0 then oldest else free;
    }

    method SessionGet(id: string, now: nat) returns (sid: Option<string>)
      requires slots.Length == SESSIONS
      ensures sid == Get(slots[..], id, now)
    {
      var k, spare := Search(id);
      if k < 0 || slots[k].sid == "" || now - slots[k].taken > SESSION_TTL {
        return None;
      }
      return Some(slots[k].sid);
    }

    method SessionSet(id: string, sid: string, now: nat)
      requires slots.Length == SESSIONS
      modifies slots
      ensures slots[..] == Set(old(slots[..]), id, sid, now)
      ensures id != "" && UniqueIds(old(slots[..])) ==>
        UniqueIds(slots[..])
        && forall later :: now <= later ==>
             Get(slots[..], id, later) == if sid == "" || later - now > SESSION_TTL then None else Some(sid)
    {
      var k, spare := Search(id);
      if k < 0 {
        k := spare;
        slots[k] := slots[k].(id := id, sid := "");
      }
      slots[k] := slots[k].(sid := sid, taken := now);
      assert slots[..] == Set(old(slots[..]), id, sid, now);
      if id != "" && UniqueIds(old(slots[..])) {
        forall later | now <= later
          ensures Get(slots[..], id, later) == if sid == "" || later - now > SESSION_TTL then None else Some(sid)
        {
          GetAfterSet(old(slots[..]), id, sid, now, later);
        }
        GetAfterSet(old(slots[..]), id, sid, now, now);
      }
    }

    method Forget(id: string)
      requires slots.Length == SESSIONS
      modifies slots
      ensures slots[..] == Forgotten(old(slots[..]), id)
    {
      var k, spare := Search(id);
      if k >= 0 {
        slots[k] := slots[k].(id := "");
      }
    }
  }

  // ---------------------------------------------------------------- the request machine

  /** An element of a reply's result array; a table may carry a session. */
  datatype Item = Num(v: nat) | Table(text: string, session: Option<string>) | Other

  /** What came back: nothing, no JSON, an error or no result array, or the result. */
  datatype Resp = NoBody | NotJson | NoResult | Result(items: seq<Item>)

  /** What a request that is about to start finds: a usable session, and whether it can be sent. */
  datatype Start = Start(found: bool, sendable: bool)

  /**
   result: what the callback gets with ok; open: the connection exists; armed: the finish timer is
   set; done: the request is freed. The numbers count HTTP requests started, callbacks, finish timers
   and logins whose session was already unusable when it was needed.
   */
  datatype Req = Req(login: bool, retried: bool, retryNow: bool, relogin: bool, ok: bool, result: Option<Item>,
                     open: bool, armed: bool, done: bool,
                     http: nat, cbs: nat, finishes: nat, blanks: nat)

  datatype Event = Eof(resp: Resp) | Error | TooLarge | Fire(retry: Start, again: Start)

  const NEW: Req := Req(false, false, false, false, false, None, false, false, false, 0, 0, 0, 0)

  function Started(r: Req, e: Start): Req {
    var t := r.(login := r.login || !e.found);
    if e.sendable then t.(open := true, http := t.http + 1) else t
  }

  function Done(r: Req, result: Option<Item>, ok: bool): Req {
    r.(result := result, ok := ok, armed := true)
  }

  /** A reply that calls for a new login and another try, unless that has been tried. */
  function Rejected(r: Req): Req {
    if !r.retried && !r.login then r.(retryNow := true, armed := true) else Done(r, None, false)
  }

  function Scanned(r: Req, items: seq<Item>): Req {
    if items == [] then Done(r, None, !r.login) else
    match items[0]
    case Num(v) => if v != 0 then Rejected(r) else Scanned(r, items[1..])
    case Table(_, sid) =>
      if !r.login then Done(r, Some(items[0]), true)
      else if sid.Some? then r.(relogin := true, armed := true)
      else Scanned(r, items[1..])
    case Other => Scanned(r, items[1..])
  }

  /** The session that reading the items stores. */
  function Stored(r: Req, items: seq<Item>): Option<string> {
    if items == [] then None else
    match items[0]
    case Num(v) => if v != 0 then None else Stored(r, items[1..])
    case Table(_, sid) => if !r.login then None else if sid.Some? then sid else Stored(r, items[1..])
    case Other => Stored(r, items[1..])
  }

  function Parsed(r: Req, resp: Resp): Req {
    match resp
    case NoBody => Done(r, None, false)
    case NotJson => Done(r, None, false)
    case NoResult => Rejected(r)
    case Result(items) => Scanned(r, items)
  }

  function Retried(r: Req, e: Start): Req {
    Started(r.(retryNow := false, retried := true, login := true), e)
  }

  function Resumed(r: Req, e: Start): Req {
    Started(r.(relogin := false, login := false, blanks := r.blanks + if e.found then 0 else 1), e)
  }

  function Called(r: Req): Req {
    r.(cbs := r.cbs + 1, done := true)
  }

  function Closed(r: Req): Req {
    r.(open := false, armed := false, finishes := r.finishes + 1)
  }

  /** The finish timer: e1 is what a retry finds, e2 what the call after a login finds. */
  function Finished(r: Req, e1: Start, e2: Start): Req {
    var r1 := if r.retryNow then Retried(Closed(r), e1) else Closed(r);
    if r.retryNow && e1.sendable then r1 else
    var r2 := if r1.relogin then Resumed(r1, e2) else r1;
    if r1.relogin && e2.sendable then r2 else Called(r2)
  }

  predicate Enabled(r: Req, e: Event) {
    !r.done && if e.Fire? then r.armed else r.open
  }

  function Step(r: Req, e: Event): Req {
    match e
    case Eof(resp) => Parsed(r, resp)
    case Error => Done(r, None, false)
    case TooLarge => Done(r, None, false)
    case Fire(e1, e2) => Finished(r, e1, e2)
  }

  /** How many more HTTP requests the flags allow. */
  function Rank(r: Req): nat {
    (if r.login then 1 else 0) + if r.retried then 0 else 2
  }

  ghost predicate Inv(r: Req) {
    && (r.retryNow ==> !r.login && !r.retried) && (r.relogin ==> r.login)
    && r.cbs == (if r.done then 1 else 0)
    && r.finishes + 1 == r.http + r.cbs
    && (if r.done then !r.open && !r.armed else r.open || r.armed)
    && r.http <= 4 + r.blanks && (!r.done ==> r.http + Rank(r) <= 4 + r.blanks)
  }

  lemma {:induction false} ScannedInv(r: Req, items: seq<Item>)
    requires Inv(r) && !r.done
    ensures Inv(Scanned(r, items)) && Scanned(r, items).armed
    decreases |items|
  {
    if items != [] {
      ScannedInv(r, items[1..]);
    }
  }

  lemma FinishedInv(r: Req, e1: Start, e2: Start)
    requires Inv(r) && !r.done
    ensures Inv(Finished(r, e1, e2))
  {
    if r.retryNow {
      assert !r.relogin;
    }
  }

  lemma StepInv(r: Req, e: Event)
    requires Inv(r) && Enabled(r, e)
    ensures Inv(Step(r, e))
  {
    hide Finished, Scanned;
    match e
    case Eof(resp) =>
      if resp.Result? {
        ScannedInv(r, resp.items);
      }
    case Error =>
    case TooLarge =>
    case Fire(e1, e2) => FinishedInv(r, e1, e2);
  }

  /** The states of a request that mesh_rpc_call could start. */
  ghost predicate RunOf(rs: seq<Req>, es: seq<Event>) {
    && |rs| == |es| + 1
    && (exists e: Start :: e.sendable && rs[0] == Started(NEW, e))
    && forall k :: 0 <= k < |es| ==> Enabled(rs[k], es[k]) && rs[k + 1] == Step(rs[k], es[k])
  }

  /**
   In every run, an unfinished request is always owed a network event or its timer; when the
   timer has fired often enough it is done; the callback has then fired once and never before;
   and at most four HTTP requests were made, plus one for every session that was unusable when needed.
   */
  lemma {:induction false} EveryRun(rs: seq<Req>, es: seq<Event>)
    requires RunOf(rs, es)
    ensures var r := rs[|rs| - 1];
      && Inv(r)
      && (!r.done ==> r.open || r.armed)
      && r.cbs == (if r.done then 1 else 0)
      && r.http <= 4 + r.blanks
      && (r.finishes >= 4 + r.blanks ==> r.done)
    decreases |es|
  {
    var n := |es|;
    if n > 0 {
      EveryRun(rs[..n], es[..n - 1]);
      StepInv(rs[n - 1], es[n - 1]);
    }
  }

  // ---------------------------------------------------------------- the code

  class Request {
    const id: string
    const table: SessionTable
    var login: bool
    var retried: bool
    var retryNow: bool
    var relogin: bool
    var ok: bool
    var result: Option<Item>
    var open: bool
    var armed: bool
    ghost var done: bool
    ghost var http: nat
    ghost var cbs: nat
    ghost var finishes: nat
    ghost var blanks: nat

    ghost function Now(): Req
      reads this
    {
      Req(login, retried, retryNow, relogin, ok, result, open, armed, done, http, cbs, finishes, blanks)
    }

    ghost predicate Valid()
      reads table.slots
    {
      table.slots.Length == SESSIONS
    }

    constructor (id: string, table: SessionTable)
      requires table.slots.Length == SESSIONS
      ensures this.id == id && this.table == table && Now() == NEW
    {
      this.id, this.table := id, table;
      login, retried, retryNow, relogin, ok, open, armed := false, false, false, false, false, false, false;
      result := None;
      done, http, cbs, finishes, blanks := false, 0, 0, 0, 0;
    }

    method ReqStart(sendable: bool, now: nat) returns (started: bool)
      requires Valid()
      modifies `open, `login, `http
      ensures started == sendable == open && http == old(http) + if sendable then 1 else 0
      ensures login == (old(login) || Get(table.slots[..], id, now).None?)
    {
      hide Get;
      open := false;
      var sid := table.SessionGet(id, now);
      login := login || sid.None?;
      if sendable {
        open := true;
        http := http + 1;
      }
      return sendable;
    }

    method ReqDone(what: Option<Item>, success: bool)
      modifies this
      ensures Now() == Done(old(Now()), what, success)
    {
      result := what;
      ok := success;
      armed := true;
    }

    method Reject()
      modifies this
      ensures Now() == Rejected(old(Now()))
    {
      if !retried && !login {
        retryNow := true;
        armed := true;
      } else {
        ReqDone(None, false);
      }
    }

    /** Reads a reply; a login stores the session it brought. */
    method RespParse(resp: Resp, now: nat)
      requires Valid()
      modifies this, table.slots
      ensures Now() == Parsed(old(Now()), resp)
      ensures var sid := if resp.Result? then Stored(old(Now()), resp.items) else None;
        table.slots[..] == if sid.Some? then Set(old(table.slots[..]), id, sid.value, now) else old(table.slots[..])
    {
      if resp.NoBody? || resp.NotJson? {
        ReqDone(None, false);
        return;
      }
      if resp.NoResult? {
        Reject();
        return;
      }
      var i := 0;
      while i < |resp.items|
        invariant i <= |resp.items| && Now() == old(Now()) && table.slots[..] == old(table.slots[..])
        invariant Scanned(Now(), resp.items[i..]) == Scanned(Now(), resp.items)
        invariant Stored(Now(), resp.items[i..]) == Stored(Now(), resp.items)
      {
        match resp.items[i] {
          case Num(v) =>
            if v != 0 {
              Reject();
              return;
            }
          case Table(_, sid) =>
            if !login {
              ReqDone(Some(resp.items[i]), true);
              return;
            }
            if sid.Some? {
              table.SessionSet(id, sid.value, now);
              relogin := true;
              armed := true;
              return;
            }
          case Other =>
        }
        i := i + 1;
      }
      ReqDone(None, !login);
    }

    /** The finish timer: retry with a new login, or go on after a login, or report to the caller. */
    method FinishCb(sendable1: bool, sendable2: bool, now: nat)
      requires Valid()
      modifies this, table.slots
      ensures
        var s0 := old(table.slots[..]);
        var s1 := if old(retryNow) then Forgotten(s0, id) else s0;
        var found := Get(s1, id, now).Some?;
        && table.slots[..] == s1
        && Now() == Finished(old(Now()), Start(found, sendable1), Start(found, sendable2))
    {
      hide Get, Forgotten, Started, Retried, Resumed, Closed, Called;
      ConnDrop();
      if retryNow {
        var again := Retry(sendable1, now);
        if again {
          return;
        }
      }
      if relogin {
        var started := GoOn(sendable2, now);
        if started {
          return;
        }
      }
      Callback();
    }

    method ConnDrop()
      modifies `open, `armed, `finishes
      ensures Now() == Closed(old(Now())) && !open && retryNow == old(retryNow)
    {
      open, armed := false, false;
      finishes := finishes + 1;
    }

    /** Reports to the caller; the request is freed. */
    method Callback()
      modifies `cbs, `done
      ensures Now() == Called(old(Now()))
    {
      cbs := cbs + 1;
      done := true;
    }

    /** A new login after a failed call. */
    method Retry(sendable: bool, now: nat) returns (started: bool)
      requires Valid() && !open
      modifies `open, `login, `http, `retryNow, `retried, table.slots
      ensures table.slots[..] == Forgotten(old(table.slots[..]), id) && started == sendable == open
      ensures Now() == Retried(old(Now()), Start(Get(table.slots[..], id, now).Some?, sendable))
    {
      hide Forgotten, Get;
      retryNow := false;
      retried := true;
      login := true;
      table.Forget(id);
      started := ReqStart(sendable, now);
    }

    /** The call proper, after its login. */
    method GoOn(sendable: bool, now: nat) returns (started: bool)
      requires Valid() && !open
      modifies `open, `login, `http, `relogin, `blanks
      ensures started == sendable
      ensures Now() == Resumed(old(Now()), Start(Get(table.slots[..], id, now).Some?, sendable))
    {
      hide Get;
      relogin := false;
      login := false;
      blanks := blanks + if Get(table.slots[..], id, now).Some? then 0 else 1;
      started := ReqStart(sendable, now);
    }
  }
}
