/**
 What a request of package/roamd/src/mesh_rpc.c makes of a reply, said on the elements of its result
 array, and what its caller is told.
 */
module RpcReplies {
  import opened Wrappers
  import opened MeshRpc

  /** Every number before place n is zero. */
  predicate ZerosTo(items: seq<Item>, n: nat) {
    n <= |items| && forall i :: 0 <= i < n && items[i].Num? ==> items[i].v == 0
  }

  predicate FirstTable(items: seq<Item>, n: nat) {
    n < |items| && items[n].Table? && forall i :: 0 <= i < n ==> !items[i].Table?
  }

  predicate NoTable(items: seq<Item>) {
    forall i :: 0 <= i < |items| ==> !items[i].Table?
  }

  /** The reply to a call that reports success and brings result. */
  ghost predicate Succeeds(resp: Resp, result: Option<Item>) {
    && resp.Result?
    && match result
       case None => NoTable(resp.items) && ZerosTo(resp.items, |resp.items|)
       case Some(t) => exists n: nat :: FirstTable(resp.items, n) && ZerosTo(resp.items, n) && resp.items[n] == t
  }

  predicate FirstSession(items: seq<Item>, n: nat) {
    && n < |items| && items[n].Table? && items[n].session.Some?
    && forall i :: 0 <= i < n && items[i].Table? ==> items[i].session.None?
  }

  /** The reply to a login that brings the session sid. */
  ghost predicate Admits(resp: Resp, sid: string) {
    && resp.Result?
    && exists n: nat :: FirstSession(resp.items, n) && ZerosTo(resp.items, n) && resp.items[n].session == Some(sid)
  }

  lemma ZerosFrom(items: seq<Item>, n: nat)
    requires items != [] && 1 <= n <= |items|
    ensures ZerosTo(items, n) <==> (items[0].Num? ==> items[0].v == 0) && ZerosTo(items[1..], n - 1)
  {
    assert forall i :: 1 <= i < n ==> items[1..][i - 1] == items[i];
  }

  /** Looking past an element that decides nothing. */
  lemma SucceedsFrom(items: seq<Item>, result: Option<Item>)
    requires items != [] && !items[0].Table? && (items[0].Num? ==> items[0].v == 0)
    ensures Succeeds(Result(items), result) <==> Succeeds(Result(items[1..]), result)
  {
    var t := items[1..];
    assert forall i :: 1 <= i < |items| ==> t[i - 1] == items[i];
    assert NoTable(items) <==> NoTable(t);
    ZerosFrom(items, |items|);
    forall n: nat
      ensures FirstTable(t, n) <==> FirstTable(items, n + 1)
    {
    }
    forall n: nat | n < |t|
      ensures ZerosTo(t, n) <==> ZerosTo(items, n + 1)
    {
      ZerosFrom(items, n + 1);
    }
    if Succeeds(Result(items), result) && result.Some? {
      var n: nat :| FirstTable(items, n) && ZerosTo(items, n) && items[n] == result.value;
      assert FirstTable(t, n - 1) && ZerosTo(t, n - 1);
    }
    if Succeeds(Result(t), result) && result.Some? {
      var n: nat :| FirstTable(t, n) && ZerosTo(t, n) && t[n] == result.value;
      assert FirstTable(items, n + 1) && ZerosTo(items, n + 1);
    }
  }

  /** The reply to a call proper: success with its result, or another try after a new login, or failure. */
  lemma {:induction false} CallReply(r: Req, items: seq<Item>)
    requires !r.login
    ensures forall result :: Succeeds(Result(items), result) ==>
      Scanned(r, items) == r.(ok := true, result := result, armed := true)
    ensures (forall result :: !Succeeds(Result(items), result)) ==> Scanned(r, items) == Rejected(r)
    decreases |items|
  {
    if items == [] {
      assert Succeeds(Result(items), None);
      assert forall t :: !Succeeds(Result(items), Some(t));
    } else if items[0].Table? {
      assert FirstTable(items, 0) && ZerosTo(items, 0);
      assert Succeeds(Result(items), Some(items[0]));
      assert forall n: nat :: FirstTable(items, n) ==> n == 0;
      assert !NoTable(items);
    } else if items[0].Num? && items[0].v != 0 {
      assert forall n: nat :: FirstTable(items, n) ==> n > 0;
      assert forall result :: !Succeeds(Result(items), result);
    } else {
      CallReply(r, items[1..]);
      forall result
        ensures Succeeds(Result(items), result) <==> Succeeds(Result(items[1..]), result)
      {
        SucceedsFrom(items, result);
      }
    }
  }

  lemma AdmitsFrom(items: seq<Item>, sid: string)
    requires items != [] && (items[0].Table? ==> items[0].session.None?) && (items[0].Num? ==> items[0].v == 0)
    ensures Admits(Result(items), sid) <==> Admits(Result(items[1..]), sid)
  {
    var t := items[1..];
    assert forall i :: 1 <= i < |items| ==> t[i - 1] == items[i];
    forall n: nat | n < |t|
      ensures ZerosTo(t, n) <==> ZerosTo(items, n + 1)
    {
      ZerosFrom(items, n + 1);
    }
    if Admits(Result(items), sid) {
      var n: nat :| FirstSession(items, n) && ZerosTo(items, n) && items[n].session == Some(sid);
      assert FirstSession(t, n - 1) && ZerosTo(t, n - 1);
    }
    if Admits(Result(t), sid) {
      var n: nat :| FirstSession(t, n) && ZerosTo(t, n) && t[n].session == Some(sid);
      assert FirstSession(items, n + 1) && ZerosTo(items, n + 1);
    }
  }

  /** The reply to a login: its session is stored and the call follows, or failure. */
  lemma {:induction false} LoginReply(r: Req, items: seq<Item>)
    requires r.login
    ensures forall sid :: Admits(Result(items), sid) ==>
      Scanned(r, items) == r.(relogin := true, armed := true) && Stored(r, items) == Some(sid)
    ensures (forall sid :: !Admits(Result(items), sid)) ==>
      Scanned(r, items) == r.(ok := false, result := None, armed := true) && Stored(r, items) == None
    decreases |items|
  {
    if items == [] {
    } else if items[0].Table? && items[0].session.Some? {
      assert FirstSession(items, 0) && ZerosTo(items, 0);
      assert Admits(Result(items), items[0].session.value);
      assert forall n: nat :: FirstSession(items, n) ==> n == 0;
    } else if items[0].Num? && items[0].v != 0 {
      assert forall n: nat :: FirstSession(items, n) ==> n > 0;
      assert forall sid :: !Admits(Result(items), sid);
    } else {
      LoginReply(r, items[1..]);
      forall sid
        ensures Admits(Result(items), sid) <==> Admits(Result(items[1..]), sid)
      {
        AdmitsFrom(items, sid);
      }
    }
  }

  // ---------------------------------------------------------------- every reply

  /** A reply that is an error, or a result that reports one. */
  ghost predicate Refuses(resp: Resp) {
    resp.NoResult? || (resp.Result? && forall result :: !Succeeds(resp, result))
  }

  /** What a reply does to a request, and the session it leaves in the table. */
  lemma ReplyIs(r: Req, resp: Resp)
    ensures !r.login ==> forall result :: Succeeds(resp, result) ==>
      Parsed(r, resp) == r.(ok := true, result := result, armed := true)
    ensures !r.login && Refuses(resp) ==>
      Parsed(r, resp) ==
        if r.retried then r.(ok := false, result := None, armed := true) else r.(retryNow := true, armed := true)
    ensures r.login ==> forall sid :: Admits(resp, sid) ==>
      Parsed(r, resp) == r.(relogin := true, armed := true) && Stored(r, resp.items) == Some(sid)
    ensures r.login && (forall sid :: !Admits(resp, sid)) ==>
      Parsed(r, resp) == r.(ok := false, result := None, armed := true)
    ensures resp.NoBody? || resp.NotJson? ==> Parsed(r, resp) == r.(ok := false, result := None, armed := true)
  {
    hide Scanned, Stored, Succeeds;
    if resp.Result? {
      if r.login {
        LoginReply(r, resp.items);
      } else {
        CallReply(r, resp.items);
      }
    }
    assert !resp.Result? ==> forall result :: !Succeeds(resp, result) by { OnlyResults(resp); }
  }

  lemma OnlyResults(resp: Resp)
    ensures !resp.Result? ==> forall result :: !Succeeds(resp, result)
  {
  }

  /** The callback gets what the reply to the call brought, and success exactly when it was one. */
  lemma SuccessIff(r: Req, resp: Resp, e1: Start, e2: Start)
    requires Inv(r) && !r.done && !r.login && !r.retryNow
    ensures var t := Finished(Parsed(r, resp), e1, e2);
      && (forall result :: Succeeds(resp, result) ==> t.done && t.cbs == 1 && t.ok && t.result == result)
      && (resp.NoBody? || resp.NotJson? || (Refuses(resp) && r.retried) ==> t.done && t.cbs == 1 && !t.ok)
      && (Refuses(resp) && !r.retried && e1.sendable ==> !t.done && t.login && t.open)
  {
    hide Succeeds, Refuses, Parsed;
    ReplyIs(r, resp);
  }

  /** The reply that made this state's ok true. */
  ghost predicate Told(rs: seq<Req>, es: seq<Event>, n: nat, k: nat)
    requires n < |rs| <= |es| + 1
  {
    && k < n && es[k].Eof? && !rs[k].login && Succeeds(es[k].resp, rs[n].result)
    && forall j :: k < j < n ==> !es[j].Error? && !es[j].TooLarge?
  }

  lemma ParsedOk(r: Req, resp: Resp)
    requires Parsed(r, resp).ok
    ensures (!r.login && Succeeds(resp, Parsed(r, resp).result)) || (r.ok && Parsed(r, resp).result == r.result)
  {
    hide Succeeds, Parsed, Admits;
    ReplyIs(r, resp);
    if r.login {
      if resp.Result? && exists sid :: Admits(resp, sid) {
        var sid :| Admits(resp, sid);
      }
    } else if resp.Result? && !Refuses(resp) {
      var result :| Succeeds(resp, result);
    }
  }

  lemma StepOk(r: Req, e: Event)
    requires Step(r, e).ok
    ensures if e.Eof? && !r.login && Succeeds(e.resp, Step(r, e).result) then true
      else (e.Fire? || e.Eof?) && r.ok && Step(r, e).result == r.result
  {
    hide Succeeds, Parsed;
    if e.Eof? {
      ParsedOk(r, e.resp);
    }
  }

  /** In every run a caller is told of success only after such a reply, read while not logging in, with its result. */
  lemma {:induction false} SuccessIsTold(rs: seq<Req>, es: seq<Event>, n: nat) returns (k: nat)
    requires RunOf(rs, es) && n < |rs| && rs[n].ok
    ensures Told(rs, es, n, k)
    decreases n
  {
    hide Succeeds, Step;
    NotAtFirst(rs, es);
    var r, e := rs[n - 1], es[n - 1];
    assert rs[n] == Step(r, e);
    StepOk(r, e);
    if e.Eof? && !r.login && Succeeds(e.resp, rs[n].result) {
      k := n - 1;
    } else {
      k := SuccessIsTold(rs, es, n - 1);
    }
  }

  lemma NotAtFirst(rs: seq<Req>, es: seq<Event>)
    requires RunOf(rs, es)
    ensures !rs[0].ok
  {
  }
}
