/** What a device knows of a client: package/roamd/src/sta.c. Time is in milliseconds and above 0. */
module Station {
  import opened Wrappers
  import opened RoamConfig

  const NO_SIGNAL: int := 0
  const FLAP_LIMIT: nat := 2
  const FLAP_PAUSE: nat := 900000

  datatype Info = Info(signal: int, seen: nat, denyStart: nat, allowUntil: nat, ht: bool, present: bool)

  /** An access point of the device. */
  datatype Bss = Bss(id: nat, band: Band, opClass: nat)

  datatype Sta = Sta(addr: nat, low: Info, high: Info, bss: Option<Bss>, connectedSince: nat,
                     lastSteer: nat, lastBeaconReq: nat, steerCount: nat, flapCount: nat,
                     giveUpUntil: nat, steerFrom: Band, silent: nat, btm: bool, rrm: bool)

  const NOTHING := Info(NO_SIGNAL, 0, 0, 0, false, false)

  /** A new record, all of it zero. */
  function Fresh(addr: nat): Sta {
    Sta(addr, NOTHING, NOTHING, None, 0, 0, 0, 0, 0, 0, Low, 0, false, false)
  }

  function On(s: Sta, b: Band): Info {
    if b == Low then s.low else s.high
  }

  function Put(s: Sta, b: Band, i: Info): Sta {
    if b == Low then s.(low := i) else s.(high := i)
  }

  function Seen(s: Sta, b: Band, signal: int, now: nat): Sta {
    var i := On(s, b);
    Put(s, b, i.(present := true, seen := now, signal := if signal != NO_SIGNAL then signal else i.signal))
  }

  /** Found on bss: a change starts a new connection, and a return to where it was asked away is a flap. */
  function Connected(c: Config, s: Sta, bss: Bss, signal: int, now: nat): Sta {
    var t :=
      if s.bss == Some(bss) then s
      else
        var crossed := s.bss.Some? && s.bss.value.band != bss.band;
        var back := s.lastSteer != 0 && bss.band == s.steerFrom && now - s.lastSteer < c.ageTime;
        var f := if !crossed then s.flapCount else if back then s.flapCount + 1 else 0;
        var g := if !crossed then s.giveUpUntil
                 else if !back then 0
                 else if f >= FLAP_LIMIT then now + FLAP_PAUSE
                 else s.giveUpUntil;
        s.(flapCount := f, giveUpUntil := g, bss := Some(bss), connectedSince := now,
           steerCount := 0, silent := 0);
    Seen(t, bss.band, signal, now)
  }

  function Reset(s: Sta): Sta {
    s.(bss := None, connectedSince := 0)
  }

  function Newest(s: Sta): nat {
    if s.high.seen > s.low.seen then s.high.seen else s.low.seen
  }

  /** The record is forgotten: not connected, and heard on no band for the age time. */
  predicate Expires(c: Config, s: Sta, now: nat) {
    s.bss.None? && now - Newest(s) > c.ageTime
  }

  /** A measurement the client sent. */
  function Reported(s: Sta, b: Band, signal: int, now: nat): Sta {
    Put(s, b, On(s, b).(signal := signal, seen := now, present := true)).(silent := 0)
  }

  /** struct roam_sta, updated in place. */
  class Client {
    const addr: nat
    var low: Info
    var high: Info
    var bss: Option<Bss>
    var connectedSince: nat
    var lastSteer: nat
    var lastBeaconReq: nat
    var steerCount: nat
    var flapCount: nat
    var giveUpUntil: nat
    var steerFrom: Band
    var silent: nat
    var btm: bool
    var rrm: bool

    function Now(): Sta
      reads this
    {
      Sta(addr, low, high, bss, connectedSince, lastSteer, lastBeaconReq, steerCount, flapCount,
          giveUpUntil, steerFrom, silent, btm, rrm)
    }

    constructor (a: nat)
      ensures Now() == Fresh(a)
    {
      addr := a;
      low, high, bss := NOTHING, NOTHING, None;
      connectedSince, lastSteer, lastBeaconReq, steerCount, flapCount, giveUpUntil := 0, 0, 0, 0, 0, 0;
      steerFrom, silent, btm, rrm := Low, 0, false, false;
    }

    function Band(b: Band): Info
      reads this
    {
      if b == Low then low else high
    }

    method SetBand(b: Band, i: Info)
      modifies this`low, this`high
      ensures Now() == Put(old(Now()), b, i)
    {
      if b == Low {
        low := i;
      } else {
        high := i;
      }
    }

    method StaBandSeen(b: Band, signal: int, now: nat)
      modifies this`low, this`high
      ensures Now() == Seen(old(Now()), b, signal, now)
    {
      var info := Band(b);
      info := info.(present := true, seen := now);
      if signal != NO_SIGNAL {
        info := info.(signal := signal);
      }
      SetBand(b, info);
    }

    method SetConnected(c: Config, to: Bss, signal: int, now: nat)
      modifies this
      ensures Now() == Connected(c, old(Now()), to, signal, now)
    {
      if bss != Some(to) {
        var prev := bss;
        if prev.Some? && prev.value.band != to.band {
          if lastSteer != 0 && to.band == steerFrom && now - lastSteer < c.ageTime {
            flapCount := flapCount + 1;
            if flapCount >= FLAP_LIMIT {
              giveUpUntil := now + FLAP_PAUSE;
            }
          } else {
            flapCount := 0;
            giveUpUntil := 0;
          }
        }
        bss := Some(to);
        connectedSince := now;
        steerCount := 0;
        silent := 0;
      }
      StaBandSeen(to.band, signal, now);
    }

    method StaReset()
      modifies this
      ensures Now() == Reset(old(Now()))
    {
      bss := None;
      connectedSince := 0;
    }

    method BeaconReport(b: Band, signal: int, now: nat)
      modifies this
      ensures Now() == Reported(old(Now()), b, signal, now)
    {
      silent := 0;
      SetBand(b, Band(b).(signal := signal, seen := now, present := true));
    }
  }
}
