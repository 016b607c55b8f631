/** Thresholds and client rules of package/roamd/src/config.c. */
module RoamConfig {
  import opened Wrappers

  datatype Band = Low | High

  datatype Prefer = NoBand | PreferLow | PreferHigh

  function Other(b: Band): Band {
    if b == Low then High else Low
  }

  datatype Config = Config(
    enabled: bool, bandSteering: bool, neighborReports: bool, bssTransition: bool, allowKick: bool,
    denyProbe: bool, prefer: Prefer,
    rssiLow: int, rssiGood: int, rssiDiff: int, nodeRssiDiff: int, kickRssi: int,
    holdTime: nat, ageTime: nat, checkLow: nat, checkHigh: nat, pollInterval: nat, denyTime: nat,
    steerRetries: nat, beaconReqInterval: nat)

  const TWO_TO_THE_32: nat := 0x1_0000_0000

  /** What every reader of the configuration relies on. */
  predicate Sane(c: Config) {
    c.rssiLow < c.rssiGood && c.rssiDiff >= 1 && c.nodeRssiDiff >= 1 && c.pollInterval >= 500
    && c.steerRetries >= 1
  }

  function Sanitized(c: Config): Config {
    c.(rssiGood := if c.rssiGood <= c.rssiLow then c.rssiLow + 10 else c.rssiGood,
       rssiDiff := if c.rssiDiff < 1 then 1 else c.rssiDiff,
       nodeRssiDiff := if c.nodeRssiDiff < 1 then 1 else c.nodeRssiDiff,
       pollInterval := if c.pollInterval < 500 then 500 else c.pollInterval,
       ageTime := if c.ageTime < c.holdTime then c.holdTime * 3 % TWO_TO_THE_32 else c.ageTime,
       steerRetries := if c.steerRetries == 0 then 1 else c.steerRetries)
  }

  /** Sanitizing makes a configuration sane, leaves a sane one alone, and needs to be done only once
      unless tripling wraps around. */
  lemma SanitizedIsSane(c: Config)
    ensures Sane(Sanitized(c))
    ensures Sane(c) && c.ageTime >= c.holdTime ==> Sanitized(c) == c
    ensures Sanitized(c).ageTime >= c.holdTime ==> Sanitized(Sanitized(c)) == Sanitized(c)
  {
  }

  /** A repair raises a value no further than it must; a low threshold for a good signal becomes 10 dB above
      the bad one; everything else is left alone. */
  lemma LeastRepair(c: Config, d: Config)
    requires Sane(d)
    ensures var r := Sanitized(c);
      && r == c.(rssiGood := r.rssiGood, rssiDiff := r.rssiDiff, nodeRssiDiff := r.nodeRssiDiff,
                 pollInterval := r.pollInterval, ageTime := r.ageTime, steerRetries := r.steerRetries)
      && c.rssiDiff <= r.rssiDiff && (c.rssiDiff <= d.rssiDiff ==> r.rssiDiff <= d.rssiDiff)
      && c.nodeRssiDiff <= r.nodeRssiDiff && (c.nodeRssiDiff <= d.nodeRssiDiff ==> r.nodeRssiDiff <= d.nodeRssiDiff)
      && c.pollInterval <= r.pollInterval && (c.pollInterval <= d.pollInterval ==> r.pollInterval <= d.pollInterval)
      && c.steerRetries <= r.steerRetries && (c.steerRetries <= d.steerRetries ==> r.steerRetries <= d.steerRetries)
      && (r.rssiGood != c.rssiGood ==> c.rssiGood <= c.rssiLow && r.rssiGood - 10 == c.rssiLow)
      && (r.ageTime != c.ageTime ==> c.ageTime < c.holdTime && (3 * c.holdTime - r.ageTime) % TWO_TO_THE_32 == 0)
  {
    if c.ageTime < c.holdTime {
      var n := 3 * c.holdTime;
      assert n == TWO_TO_THE_32 * (n / TWO_TO_THE_32) + n % TWO_TO_THE_32;
    }
  }

  /** The widths of the times in the source. */
  predicate Wide(c: Config) {
    c.holdTime < TWO_TO_THE_32 && c.ageTime < TWO_TO_THE_32
  }

  /** The longest hold times that triple without wrapping around, and that wrap around once. */
  const TRIPLES: nat := 1431655765
  const WRAPS_ONCE: nat := 2863311530

  /**
   The age time covers the hold time exactly when it did before or the hold time is at most a third
   of the range, or between one half and two thirds of it, where the tripled time wraps around
   to something at least as long.
   */
  lemma AgeCoversHoldIff(c: Config)
    requires Wide(c)
    ensures Sanitized(c).ageTime >= Sanitized(c).holdTime
       <==> c.ageTime >= c.holdTime || c.holdTime <= TRIPLES || 0x8000_0000 <= c.holdTime <= WRAPS_ONCE
  {
    if c.ageTime < c.holdTime {
      Tripled(c.holdTime);
    }
  }

  lemma Tripled(n: nat)
    requires n < TWO_TO_THE_32
    ensures 3 * n % TWO_TO_THE_32 ==
            if n <= TRIPLES then 3 * n
            else if n <= WRAPS_ONCE then 3 * n - TWO_TO_THE_32
            else 3 * n - 2 * TWO_TO_THE_32
  {
  }

  /** The configuration in effect; config_sanitize repairs it in place. */
  class Settings {
    var config: Config

    constructor (c: Config)
      ensures config == c
    {
      config := c;
    }

    method ConfigSanitize()
      modifies this
      ensures config == Sanitized(old(config)) && Sane(config)
    {
      var good, diff, node := config.rssiGood, config.rssiDiff, config.nodeRssiDiff;
      var poll, age, retries := config.pollInterval, config.ageTime, config.steerRetries;
      if good <= config.rssiLow {
        good := config.rssiLow + 10;
      }
      if diff < 1 {
        diff := 1;
      }
      if node < 1 {
        node := 1;
      }
      if poll < 500 {
        poll := 500;
      }
      if age < config.holdTime {
        age := config.holdTime * 3 % TWO_TO_THE_32;
      }
      if retries == 0 {
        retries := 1;
      }
      config := config.(rssiGood := good, rssiDiff := diff, nodeRssiDiff := node, pollInterval := poll,
                        ageTime := age, steerRetries := retries);
    }
  }

  // ---------------------------------------------------------------- rules

  datatype Lock = NoLock | LockLow | LockHigh

  /** A rule of one client: its band, and the devices it may use, all when none is named. */
  datatype Device = Device(lock: Lock, nodes: seq<string>)

  datatype Verdict = AdmitOk | DenyNode | DenyBand

  function LockedBand(lock: Lock): Band {
    if lock == LockLow then Low else High
  }

  /** roam_admit, where usable says which bands some device of the system serves. */
  function Admit(dev: Option<Device>, node: string, band: Band, usable: set<Band>): Verdict {
    match dev
    case None => AdmitOk
    case Some(d) =>
      if d.nodes != [] && node !in d.nodes then DenyNode
      else if d.lock == NoLock || band == LockedBand(d.lock) then AdmitOk
      else if LockedBand(d.lock) in usable then DenyBand
      else AdmitOk
  }

  /** A client with a lock gets that band alone where a device may serve it, unless no device serves the band. */
  lemma LockedTo(d: Device, node: string, band: Band, usable: set<Band>)
    requires d.lock != NoLock && (d.nodes == [] || node in d.nodes)
    ensures Admit(Some(d), node, band, usable) == AdmitOk <==>
      (d.lock == LockLow <==> band == Low) || (if d.lock == LockLow then Low else High) !in usable
  {
  }

  /** A device that may serve a client has a band for it, and one that may not has none. */
  lemma AdmitSomeBand(dev: Option<Device>, node: string, usable: set<Band>)
    ensures (exists b :: Admit(dev, node, b, usable) == AdmitOk)
       <==> (forall b :: Admit(dev, node, b, usable) != DenyNode)
    ensures (exists b :: Admit(dev, node, b, usable) == AdmitOk && b in usable)
         || (forall b :: b in usable ==> Admit(dev, node, b, usable) == AdmitOk)
         || (forall b :: Admit(dev, node, b, usable) == DenyNode)
  {
    var b := if dev.Some? then LockedBand(dev.value.lock) else Low;
    assert Admit(dev, node, b, usable) == AdmitOk || Admit(dev, node, b, usable) == DenyNode;
  }
}
