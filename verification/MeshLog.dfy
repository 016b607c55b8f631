/**
 Event replication of package/roamd/src/mesh_log.c: nodes keep a ring of events and report its
 newest part again and again; the controller merges the reports through a bounded ring of
 recently seen keys. Each event reaches the controller's log once, in the node's order.
 */
module MeshLog {
  import opened Bits

  const LOG_MAX: nat := 200
  const REPORT_EVENTS: nat := 100
  const SEQ_MOD: nat := 0x1_0000_0000

  /** What an event says, apart from when and where. */
  datatype Body = Body(mac: string, fromBand: nat, toBand: nat, kind: nat)

  datatype Event = Event(seqno: nat, ts: nat, node: string, origin: string, originSeq: nat, body: Body)

  /** An element of a report: it may lack its sequence number, time or address. */
  datatype Entry = Entry(seqno: nat, ts: nat, body: Body) | Incomplete

  type Key = (nat, nat)

  function KeyOf(e: Entry): Key
    requires e.Entry?
  {
    (e.seqno, e.ts)
  }

  function LastN<T>(s: seq<T>, n: nat): seq<T> {
    if |s| <= n then s else s[|s| - n..]
  }

  function Reverse<T>(s: seq<T>): (r: seq<T>)
    ensures |r| == |s|
    ensures forall i :: 0 <= i < |s| ==> r[i] == s[|s| - 1 - i]
  {
    if s == [] then [] else [s[|s| - 1]] + Reverse(s[..|s| - 1])
  }

  // ---------------------------------------------------------------- rings

  function Place(head: nat, i: nat, n: nat): (p: nat)
    requires head < n && i <= n
    ensures p < n && p == (head + i) % n
  {
    if head + i < n then head + i
    else
      DivStep(head + i - n, n);
      head + i - n
  }

  /** The count entries of a ring that start at head. */
  function View<T>(a: seq<T>, head: nat, count: nat): (v: seq<T>)
    requires head < |a| && count <= |a|
    ensures |v| == count
  {
    seq(count, i requires 0 <= i < count => a[Place(head, i, |a|)])
  }

  lemma ViewPush<T>(a: seq<T>, head: nat, count: nat, x: T)
    requires head < |a| && count <= |a| && (count < |a| ==> head == 0)
    ensures var b := a[Place(head, count, |a|) := x];
      if count < |a| then View(b, head, count + 1) == View(a, head, count) + [x]
      else View(b, (head + 1) % |a|, count) == View(a, head, count)[1..] + [x]
  {
    var b := a[Place(head, count, |a|) := x];
    if count == |a| {
      var h := Place(head, 1, |a|);
      assert h == (head + 1) % |a|;
      forall k | 0 <= k < count - 1
        ensures Place(h, k, |a|) == Place(head, k + 1, |a|) != head
      {
      }
      assert View(b, h, count) == View(a, head, count)[1..] + [x];
    } else {
      assert View(b, head, count + 1) == View(a, head, count) + [x];
    }
  }

  lemma LastNPush<T>(s: seq<T>, n: nat, x: T)
    requires n > 0
    ensures LastN(s + [x], n) == if |LastN(s, n)| < n then LastN(s, n) + [x] else LastN(s, n)[1..] + [x]
  {
  }

  lemma ViewAt<T>(a: seq<T>, head: nat, count: nat, k: nat)
    requires head < |a| && count <= |a| && k < count
    ensures View(a, head, count)[k] == a[(head + k) % |a|]
  {
    assert Place(head, k, |a|) == (head + k) % |a|;
  }

  lemma LastNLastN<T>(s: seq<T>, n: nat, m: nat)
    requires m <= n
    ensures LastN(LastN(s, n), m) == LastN(s, m)
  {
  }

  lemma LastNIs<T>(s: seq<T>, n: nat)
    ensures LastN(s, n) == s[if n <= |s| then |s| - n else 0..]
  {
  }

  // ---------------------------------------------------------------- the ring of seen keys

  class Source {
    const seqs: array<nat>
    const tss: array<nat>
    var count: nat
    var head: nat

    ghost predicate Valid()
      reads `count, `head
    {
      && seqs.Length == REPORT_EVENTS && tss.Length == REPORT_EVENTS && seqs != tss
      && count <= REPORT_EVENTS && head < REPORT_EVENTS && (count < REPORT_EVENTS ==> head == 0)
    }

    /** The keys held, oldest first. */
    ghost function Keys(): (k: seq<Key>)
      requires Valid()
      reads this, seqs, tss
      ensures |k| == count
    {
      Zip(View(seqs[..], head, count), View(tss[..], head, count))
    }

    constructor ()
      ensures Valid() && Keys() == [] && fresh(seqs) && fresh(tss)
    {
      seqs := new nat[REPORT_EVENTS];
      tss := new nat[REPORT_EVENTS];
      count, head := 0, 0;
    }

    method Has(s: nat, t: nat) returns (r: bool)
      requires Valid()
      ensures r <==> (s, t) in Keys()
    {
      for i := 0 to count
        invariant forall j :: 0 <= j < i ==> (seqs[j], tss[j]) != (s, t)
      {
        if seqs[i] == s && tss[i] == t {
          assert Place(head, if i >= head then i - head else i + REPORT_EVENTS - head, REPORT_EVENTS) == i;
          assert Keys()[if i >= head then i - head else i + REPORT_EVENTS - head] == (s, t);
          return true;
        }
      }
      forall k | 0 <= k < |Keys()|
        ensures Keys()[k] != (s, t)
      {
        assert Keys()[k] == (seqs[Place(head, k, REPORT_EVENTS)], tss[Place(head, k, REPORT_EVENTS)]);
      }
      return false;
    }

    method Add(s: nat, t: nat)
      requires Valid()
      modifies this, seqs, tss
      ensures Valid() && Keys() == LastN(old(Keys()) + [(s, t)], REPORT_EVENTS)
    {
      var idx := (head + count) % REPORT_EVENTS;
      seqs[idx] := s;
      tss[idx] := t;
      if count < REPORT_EVENTS {
        count := count + 1;
      } else {
        head := (head + 1) % REPORT_EVENTS;
      }
      assert seqs[..] == old(seqs[..])[idx := s] && tss[..] == old(tss[..])[idx := t];
      ViewPush(old(seqs[..]), old(head), old(count), s);
      ViewPush(old(tss[..]), old(head), old(count), t);
      LastNPush(old(Keys()), REPORT_EVENTS, (s, t));
    }
  }

  function Zip(a: seq<nat>, b: seq<nat>): (z: seq<Key>)
    requires |a| == |b|
    ensures |z| == |a|
  {
    seq(|a|, i requires 0 <= i < |a| => (a[i], b[i]))
  }

  // ---------------------------------------------------------------- the log

  class Log {
    const ring: array<Event>
    var ringHead: nat
    var ringCount: nat
    var ringSeq: nat
    /** Every event ever pushed, in order. */
    ghost var history: seq<Event>

    ghost predicate Valid()
      reads this, ring
    {
      && ring.Length == LOG_MAX && ringCount <= LOG_MAX && ringHead < LOG_MAX
      && (ringCount < LOG_MAX ==> ringHead == 0)
      && ringSeq == |history| % SEQ_MOD
      && (forall i :: 0 <= i < |history| ==> history[i].seqno == (i + 1) % SEQ_MOD)
      && View(ring[..], ringHead, ringCount) == LastN(history, LOG_MAX)
    }

    constructor (blank: Event)
      ensures Valid() && history == [] && fresh(ring)
    {
      ring := new Event[LOG_MAX](_ => blank);
      ringHead, ringCount, ringSeq, history := 0, 0, 0, [];
    }

    /** Numbers the event, stamps it when it has no time of its own, and stores it in the ring. */
    method Push(ev: Event, now: nat)
      requires Valid()
      modifies this, ring
      ensures Valid()
      ensures history == old(history) +
        [ev.(seqno := (|old(history)| + 1) % SEQ_MOD, ts := if ev.ts == 0 then now else ev.ts)]
    {
      hide View, LastN;
      var idx := (ringHead + ringCount) % LOG_MAX;
      NextSeq(|history|);
      ringSeq := (ringSeq + 1) % SEQ_MOD;
      var slot := ev.(seqno := ringSeq, ts := if ev.ts == 0 then now else ev.ts);
      ring[idx] := slot;
      if ringCount < LOG_MAX {
        ringCount := ringCount + 1;
      } else {
        ringHead := (ringHead + 1) % LOG_MAX;
      }
      assert ring[..] == old(ring[..])[idx := slot];
      ViewPush(old(ring[..]), old(ringHead), old(ringCount), slot);
      LastNPush(history, LOG_MAX, slot);
      history := history + [slot];
    }

    /** The newest limit events, newest first; all of the ring when limit is 0 or too large. */
    method Dump(limit: nat) returns (out: seq<Event>)
      requires Valid()
      ensures out == Reverse(LastN(history, if limit == 0 || limit > LOG_MAX then LOG_MAX else limit))
    {
      hide Reverse, LastN, View;
      ghost var held := LastN(history, LOG_MAX);
      var max := if limit == 0 || limit > ringCount then ringCount else limit;
      out := [];
      var i := ringCount;
      while i > 0 && |out| < max
        invariant i <= ringCount && |out| == ringCount - i && |out| <= max
        invariant forall k :: 0 <= k < |out| ==> out[k] == held[ringCount - 1 - k]
      {
        ViewAt(ring[..], ringHead, ringCount, i - 1);
        out := out + [ring[(ringHead + i - 1) % LOG_MAX]];
        i := i - 1;
      }
      LastNLastN(history, LOG_MAX, if limit == 0 || limit > LOG_MAX then LOG_MAX else limit);
      LastNIs(held, if limit == 0 || limit > LOG_MAX then LOG_MAX else limit);
      assert out == Reverse(held[|held| - max..]);
    }

    /** Merges a report, given newest first: events not seen lately are pushed, oldest first. */
    method Ingest(src: Source, id: string, node: string, events: seq<Entry>, now: nat)
      requires Valid() && src.Valid()
      modifies this, ring, src, src.seqs, src.tss
      ensures Valid() && src.Valid()
      ensures var m := Merge(old(src.Keys()), Batch(events));
        src.Keys() == m.keys && Ingested(old(history), history, m.pushed, id, node, now)
    {
      hide LastN, View, Zip;
      var count: nat := if |events| < REPORT_EVENTS then |events| else REPORT_EVENTS;
      ghost var done: seq<Entry> := [];
      ghost var all := Batch(events);
      while count > 0
        invariant count <= |events| && count <= REPORT_EVENTS
        invariant Valid() && src.Valid()
        invariant |history| == |old(history)| + |done| && old(history) <= history
        invariant forall k :: 0 <= k < |done| ==> Carries(history[|old(history)| + k], done[k], id, node, now)
        invariant Merge(old(src.Keys()), all) ==
          var m := Merge(src.Keys(), Reverse(events[..count])); Merged(m.keys, done + m.pushed)
      {
        count := count - 1;
        var e := events[count];
        assert events[..count + 1][..count] == events[..count];
        if e.Incomplete? {
          continue;
        }
        var seen := src.Has(e.seqno, e.ts);
        if seen {
          continue;
        }
        ghost var m := Merge(LastN(src.Keys() + [KeyOf(e)], REPORT_EVENTS), Reverse(events[..count]));
        assert done + ([e] + m.pushed) == (done + [e]) + m.pushed;
        src.Add(e.seqno, e.ts);
        Push(Event(0, e.ts, node, id, e.seqno, e.body), now);
        done := done + [e];
      }
      assert events[..0] == [] && done + [] == done;
    }
  }

  lemma NextSeq(n: nat)
    ensures (n % SEQ_MOD + 1) % SEQ_MOD == (n + 1) % SEQ_MOD
  {
  }

  /** The merged event keeps the report's time, number and body, and names its node. */
  predicate Carries(ev: Event, e: Entry, id: string, node: string, now: nat) {
    && e.Entry? && ev.origin == id && ev.originSeq == e.seqno && ev.node == node && ev.body == e.body
    && ev.ts == if e.ts == 0 then now else e.ts
  }

  /** The history goes on with the merged events, in their order. */
  predicate Ingested(was: seq<Event>, history: seq<Event>, pushed: seq<Entry>, id: string, node: string, now: nat) {
    && |history| == |was| + |pushed| && was <= history
    && forall k :: 0 <= k < |pushed| ==> Carries(history[|was| + k], pushed[k], id, node, now)
  }

  /** The part of a report that is looked at, oldest first. */
  function Batch(events: seq<Entry>): seq<Entry> {
    Reverse(events[..if |events| < REPORT_EVENTS then |events| else REPORT_EVENTS])
  }

  datatype Merged = Merged(keys: seq<Key>, pushed: seq<Entry>)

  /** Which entries are new, and which keys are remembered afterwards. */
  function Merge(keys: seq<Key>, es: seq<Entry>): Merged
    decreases |es|
  {
    if es == [] then Merged(keys, [])
    else if es[0].Incomplete? || KeyOf(es[0]) in keys then Merge(keys, es[1..])
    else
      var m := Merge(LastN(keys + [KeyOf(es[0])], REPORT_EVENTS), es[1..]);
      Merged(m.keys, [es[0]] + m.pushed)
  }
}
