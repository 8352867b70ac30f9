/**
 What one sample of the thermal backend says. First in terms of the directory and
 the readings alone; then as the collector computes it, from the library's tables;
 and the proof that the two agree, whatever failed before.
 */
module ThermalReport {
  import opened Common
  import opened Classification
  import opened Resources
  import opened Responses
  import opened SensorSpec
  import opened SensorTables
  import opened SensorViews

  const METRIC_COUNT: nat := 28   // TEMP_DOMAIN_COUNT + COOL_DOMAIN_COUNT
  const FIRST_COOLING_ID: nat := 16

  // ----- What a sample reports

  function MaxNat(a: nat, b: nat): nat { if b > a then b else a }
  function MaxReal(a: real, b: real): real { if b > a then b else a }

  /** The highest of the last good readings of the numbered sensors, 0 if there are none. */
  function PeakLatest(kind: Kind, history: seq<Snapshot>, numbers: seq<nat>): nat {
    if numbers == [] then 0
    else MaxNat(PeakLatest(kind, history, numbers[..|numbers| - 1]), Latest(kind, history, numbers[|numbers| - 1]))
  }

  /** Zones report thousandths of a degree. */
  function Degrees(milli: nat): real {
    milli as real / 1000.0
  }

  /** A throttle level in percent of its limit; a device without a positive limit does not throttle. */
  function Percent(level: nat, limit: nat): real {
    if limit > 0 then level as real / limit as real * 100.0 else 0.0
  }

  /** The highest throttle level among the numbered devices, by last good cur_state and max_state. */
  function ThrottleLatest(history: seq<Snapshot>, limits: Snapshot, numbers: seq<nat>): real {
    if numbers == [] then 0.0
    else
      var n := numbers[|numbers| - 1];
      MaxReal(ThrottleLatest(history, limits, numbers[..|numbers| - 1]),
              Percent(Latest(Cooling, history, n), Reading(Cooling, limits, n)))
  }

  /** Domain by domain, the numbers of the sensors its report is made from; None if the domain is not reported. */
  type Outfit = seq<Option<seq<nat>>>

  /** Temperature metrics of domains 0..n: the hottest sensor of each reported domain, in degrees. */
  function HottestZones(zones: Outfit, history: seq<Snapshot>, now: nat, n: nat): seq<Response>
    requires n <= |zones|
  {
    if n == 0 then [] else HottestZones(zones, history, now, n - 1) + HottestZone(zones, history, now, n - 1)
  }

  function HottestZone(zones: Outfit, history: seq<Snapshot>, now: nat, d: nat): seq<Response>
    requires d < |zones|
  {
    match zones[d]
    case None => []
    case Some(numbers) => [Response(d, now, Double(Degrees(PeakLatest(Temperature, history, numbers))))]
  }

  /** Cooling metrics of domains 0..n: the highest throttle level of each reported domain. */
  function HighestThrottles(devices: Outfit, history: seq<Snapshot>, limits: Snapshot, now: nat, n: nat): seq<Response>
    requires n <= |devices|
  {
    if n == 0 then []
    else HighestThrottles(devices, history, limits, now, n - 1) + HighestThrottle(devices, history, limits, now, n - 1)
  }

  function HighestThrottle(devices: Outfit, history: seq<Snapshot>, limits: Snapshot, now: nat, d: nat): seq<Response>
    requires d < |devices|
  {
    match devices[d]
    case None => []
    case Some(numbers) => [Response(FIRST_COOLING_ID + d, now, Double(ThrottleLatest(history, limits, numbers)))]
  }

  function SampleOf(zones: Outfit, zoneHistory: seq<Snapshot>, devices: Outfit, deviceHistory: seq<Snapshot>,
                    limits: Snapshot, now: nat): seq<Response> {
    HottestZones(zones, zoneHistory, now, |zones|) + HighestThrottles(devices, deviceHistory, limits, now, |devices|)
  }

  /** The sensors of a domain: the first 32 entries that feed it. */
  function Sensors(kind: Kind, listing: seq<Entry>, d: nat): (r: seq<Entry>)
    ensures forall e :: e in r ==> e.number.Some? && e.typ.Some?
  {
    Roster(kind, listing, d, MAX_NAMES)
  }

  function Numbers(r: seq<Entry>): (n: seq<nat>)
    requires forall e :: e in r ==> e.number.Some?
    ensures |n| == |r|
  {
    seq(|r|, i requires 0 <= i < |r| => r[i].number.value)
  }

  /** When nothing fails, every domain with a sensor is reported, from all its sensors. */
  function Ideal(kind: Kind, listing: seq<Entry>): (o: Outfit)
    ensures |o| == DomainCount(kind)
  {
    seq(DomainCount(kind), d requires 0 <= d < DomainCount(kind) =>
      var r := Sensors(kind, listing, d);
      if r == [] then None else Some(Numbers(r)))
  }

  // ----- The computed report

  function Peak(level: seq<nat>): nat {
    if level == [] then 0 else MaxNat(Peak(level[..|level| - 1]), level[|level| - 1])
  }

  function Throttle(level: seq<nat>, limit: seq<nat>): real
    requires |level| == |limit|
  {
    if level == [] then 0.0
    else
      var n := |level| - 1;
      MaxReal(Throttle(level[..n], limit[..n]), Percent(level[n], limit[n]))
  }

  /** The collector reports temperature domain d. */
  predicate ReportsZone(t: Tables, supported: seq<bool>, d: nat) {
    d < |supported| && supported[d] && Present(t, d) && t.domain[d].value.level.Some? && t.domain[d].value.len != 0
  }

  /** The collector reports cooling domain d. */
  predicate ReportsDevice(t: Tables, supported: seq<bool>, d: nat) {
    FIRST_COOLING_ID + d < |supported| && supported[FIRST_COOLING_ID + d] && Present(t, d)
    && t.domain[d].value.level.Some? && t.domain[d].value.limit.Some? && t.domain[d].value.len != 0
  }

  function ZoneReport(t: Tables, supported: seq<bool>, now: nat, n: nat): seq<Response> {
    if n == 0 then []
    else
      ZoneReport(t, supported, now, n - 1) + ZoneReading(t, supported, now, n - 1)
  }

  function ZoneReading(t: Tables, supported: seq<bool>, now: nat, d: nat): seq<Response> {
    if ReportsZone(t, supported, d) then [Response(d, now, Double(Degrees(Peak(t.domain[d].value.level.value.at))))] else []
  }

  function DeviceReport(t: Tables, supported: seq<bool>, now: nat, n: nat): seq<Response>
    requires WellFormed(Cooling, t)
  {
    if n == 0 then []
    else
      DeviceReport(t, supported, now, n - 1) + DeviceReading(t, supported, now, n - 1)
  }

  function DeviceReading(t: Tables, supported: seq<bool>, now: nat, d: nat): seq<Response>
    requires WellFormed(Cooling, t)
  {
    if ReportsDevice(t, supported, d) then
      var b := t.domain[d].value;
      [Response(FIRST_COOLING_ID + d, now, Double(Throttle(b.level.value.at, b.limit.value.at)))]
    else []
  }

  function ComputedSample(temp: Tables, cool: Tables, supported: seq<bool>, now: nat): seq<Response>
    requires WellFormed(Cooling, cool)
  {
    ZoneReport(temp, supported, now, TEMP_DOMAIN_COUNT) + DeviceReport(cool, supported, now, COOL_DOMAIN_COUNT)
  }

  // ----- Advertised metrics

  /** The ids flagged in present, packed in increasing order. */
  function Packed(present: seq<bool>): seq<nat> {
    if present == [] then []
    else
      var n := |present| - 1;
      Packed(present[..n]) + if present[n] then [n] else []
  }

  /** Domains with a block are the ones to advertise. */
  function Presence(temp: Tables, cool: Tables): (p: seq<bool>)
    ensures |p| == METRIC_COUNT
  {
    seq(METRIC_COUNT, i requires 0 <= i < METRIC_COUNT =>
      if i < FIRST_COOLING_ID then Present(temp, i) && temp.domain[i].value.len > 0
      else Present(cool, i - FIRST_COOLING_ID) && cool.domain[i - FIRST_COOLING_ID].value.len > 0)
  }

  lemma {:induction false} PackingKeepsExactly(present: seq<bool>, k: nat)
    ensures k in Packed(present) <==> k < |present| && present[k]
  {
    if present != [] {
      PackingKeepsExactly(present[..|present| - 1], k);
    }
  }

  lemma {:induction false} PackingIsIncreasing(present: seq<bool>, i: nat, j: nat)
    requires i < j < |Packed(present)|
    ensures Packed(present)[i] < Packed(present)[j]
  {
    var n := |present| - 1;
    var rest := Packed(present[..n]);
    if j < |rest| {
      PackingIsIncreasing(present[..n], i, j);
    } else {
      assert rest[i] in rest;
      PackingKeepsExactly(present[..n], rest[i]);
    }
  }

  lemma FlagsWithLast(present: seq<bool>)
    requires present != []
    ensures var n := |present| - 1;
            var rest := set k: nat | k < |present[..n]| && present[..n][k];
            (set k: nat | k < |present| && present[k]) == (rest + if present[n] then {n} else {}) && n !in rest
  {
  }

  lemma {:induction false} PackingCounts(present: seq<bool>)
    ensures |Packed(present)| == |set k: nat | k < |present| && present[k]| <= |present|
  {
    var all := set k: nat | k < |present| && present[k];
    if present == [] {
      assert all == {};
    } else {
      var n := |present| - 1;
      PackingCounts(present[..n]);
      FlagsWithLast(present);
    }
  }

  lemma {:induction false} PackedPrefix(present: seq<bool>, n: nat)
    requires n < |present|
    ensures Packed(present[..n + 1]) == Packed(present[..n]) + if present[n] then [n] else []
  {
    assert present[..n + 1][..n] == present[..n];
  }

  // ----- The computed value of a domain

  /** Of the entries r, the numbers of those whose slot below n holds an open node. */
  function OpenNumbers(r: seq<Entry>, node: Option<Cells<Option<File>>>, n: nat): (o: seq<nat>)
    requires forall e :: e in r ==> e.number.Some?
    ensures |o| <= n && forall x :: x in o ==> exists e :: e in r && e.number.value == x
  {
    if n == 0 then []
    else
      OpenNumbers(r, node, n - 1)
      + if node.Some? && n <= |node.value.at| && n <= |r| && node.value.at[n - 1].Some? then [r[n - 1].number.value] else []
  }

  /** Slots that were never filled, or whose node could not be opened, do not change the peak. */
  lemma {:induction false} PeakIsOverOpenSlots(kind: Kind, b: Block, node: Option<Cells<Option<File>>>, r: seq<Entry>,
                                               history: seq<Snapshot>, limits: Snapshot, n: nat)
    requires BlockOk(kind, b) && (node.Some? ==> |node.value.at| == b.len)
    requires forall e :: e in r ==> e.number.Some? && e.typ.Some?
    requires Holds(kind, b, node, r, history, limits) && b.level.Some? && n <= b.len
    ensures Peak(b.level.value.at[..n]) == PeakLatest(kind, history, OpenNumbers(r, node, n))
  {
    if n > 0 {
      PeakIsOverOpenSlots(kind, b, node, r, history, limits, n - 1);
      var at := b.level.value.at;
      assert at[..n][..n - 1] == at[..n - 1];
      var o := OpenNumbers(r, node, n - 1);
      assert o + [] == o;
      if node.Some? && node.value.at[n - 1].Some? {
        assert (o + [r[n - 1].number.value])[..|o|] == o;
      }
    }
  }

  lemma {:induction false} ThrottleIsOverOpenSlots(b: Block, node: Option<Cells<Option<File>>>, r: seq<Entry>,
                                                   history: seq<Snapshot>, limits: Snapshot, n: nat)
    requires BlockOk(Cooling, b) && (node.Some? ==> |node.value.at| == b.len)
    requires forall e :: e in r ==> e.number.Some? && e.typ.Some?
    requires Holds(Cooling, b, node, r, history, limits) && b.level.Some? && b.limit.Some? && n <= b.len
    ensures 0.0 <= Throttle(b.level.value.at[..n], b.limit.value.at[..n]) == ThrottleLatest(history, limits, OpenNumbers(r, node, n))
  {
    if n > 0 {
      ThrottleIsOverOpenSlots(b, node, r, history, limits, n - 1);
      var level, limit := b.level.value.at, b.limit.value.at;
      ThrottleSnoc(level, limit, n);
      var o := OpenNumbers(r, node, n - 1);
      assert o + [] == o;
      if node.Some? && node.value.at[n - 1].Some? {
        ThrottleLatestSnoc(history, limits, o, r[n - 1].number.value);
      } else {
        IdleDeviceIsZero(limit[n - 1]);
      }
      PercentIsNonNegative(level[n - 1], limit[n - 1]);
    }
  }

  lemma ThrottleSnoc(level: seq<nat>, limit: seq<nat>, n: nat)
    requires 0 < n <= |level| == |limit|
    ensures Throttle(level[..n], limit[..n]) == MaxReal(Throttle(level[..n - 1], limit[..n - 1]), Percent(level[n - 1], limit[n - 1]))
  {
    assert level[..n][..n - 1] == level[..n - 1] && limit[..n][..n - 1] == limit[..n - 1];
  }

  lemma {:induction false} ThrottleLatestSnoc(history: seq<Snapshot>, limits: Snapshot, numbers: seq<nat>, n: nat)
    ensures ThrottleLatest(history, limits, numbers + [n])
         == MaxReal(ThrottleLatest(history, limits, numbers), Percent(Latest(Cooling, history, n), Reading(Cooling, limits, n)))
  {
    assert (numbers + [n])[..|numbers|] == numbers;
  }

  lemma IdleDeviceIsZero(limit: nat)
    ensures Percent(0, limit) == 0.0
  {
  }

  lemma PercentIsNonNegative(level: nat, limit: nat)
    ensures Percent(level, limit) >= 0.0
    ensures level <= limit ==> Percent(level, limit) <= 100.0
  {
    if limit > 0 {
      var q := level as real / limit as real;
      assert q * limit as real == level as real;
      assert q >= 0.0;
      assert level <= limit ==> q <= 1.0;
    }
  }

  // ----- The computed sample, whatever failed before it

  /** The domain has the arrays its report is computed from. */
  predicate Reports(kind: Kind, t: Tables, d: nat) {
    Present(t, d) && t.domain[d].value.len != 0 && t.domain[d].value.level.Some?
    && (kind == Cooling ==> t.domain[d].value.limit.Some?)
  }

  /** What discovery left to report from: per domain, the open nodes among the first entries of the listing that feed it. */
  function OutfitOf(kind: Kind, t: Tables, listing: seq<Entry>): (o: Outfit)
    ensures |o| == DomainCount(kind)
  {
    seq(DomainCount(kind), d requires 0 <= d < DomainCount(kind) =>
      if Reports(kind, t, d) && d < |t.node| then
        var len := t.domain[d].value.len;
        Some(OpenNumbers(Roster(kind, listing, d, len), t.node[d], len))
      else None)
  }

  /** A reported value never comes from anything but at most 32 entries of the listing that classify to the domain. */
  lemma {:induction false} OutfitIsFromTheListing(kind: Kind, t: Tables, listing: seq<Entry>, d: nat)
    requires WellFormed(kind, t) && d < DomainCount(kind) && OutfitOf(kind, t, listing)[d].Some?
    ensures var numbers := OutfitOf(kind, t, listing)[d].value;
            |numbers| <= MAX_NAMES
            && forall x :: x in numbers ==> exists e :: e in Feeding(kind, listing, d) && e.number == Some(x)
  {
    var len := t.domain[d].value.len;
    var r := Roster(kind, listing, d, len);
    forall x | x in OpenNumbers(r, t.node[d], len)
      ensures exists e :: e in Feeding(kind, listing, d) && e.number == Some(x)
    {
      var e :| e in r && e.number.value == x;
      assert e in Feeding(kind, listing, d) && e.number == Some(x);
    }
  }

  /** A refresh does not change what is reported from which sensors. */
  lemma RefreshKeepsOutfit(kind: Kind, t: Tables, u: Tables, listing: seq<Entry>)
    requires WellFormed(kind, t) && Relevelled(t, u)
    ensures OutfitOf(kind, u, listing) == OutfitOf(kind, t, listing)
  {
    forall d | 0 <= d < DomainCount(kind)
      ensures OutfitOf(kind, u, listing)[d] == OutfitOf(kind, t, listing)[d]
    {
      assert RelevelledAt(t.domain[d], u.domain[d]);
    }
  }

  lemma ZoneIsReported(t: Tables, listing: seq<Entry>, history: seq<Snapshot>, limits: Snapshot, grants: Grants,
                       supported: seq<bool>, now: nat, d: nat)
    requires WellFormed(Temperature, t) && Populated(Temperature, t, listing, history, limits, grants)
    requires d < TEMP_DOMAIN_COUNT <= |supported| && supported[d] == t.domain[d].Some?
    ensures ZoneReading(t, supported, now, d) == HottestZone(OutfitOf(Temperature, t, listing), history, now, d)
  {
    assert ReportsZone(t, supported, d) <==> Reports(Temperature, t, d);
    if Reports(Temperature, t, d) {
      var b := t.domain[d].value;
      assert Faithful(Temperature, d, b, t.node[d], listing, history, limits, grants);
      assert b.level.value.at[..b.len] == b.level.value.at;
      PeakIsOverOpenSlots(Temperature, b, t.node[d], Roster(Temperature, listing, d, b.len), history, limits, b.len);
    }
  }

  lemma DeviceIsReported(t: Tables, listing: seq<Entry>, history: seq<Snapshot>, limits: Snapshot, grants: Grants,
                         supported: seq<bool>, now: nat, d: nat)
    requires WellFormed(Cooling, t) && Populated(Cooling, t, listing, history, limits, grants)
    requires d < COOL_DOMAIN_COUNT && |supported| == METRIC_COUNT && supported[FIRST_COOLING_ID + d] == t.domain[d].Some?
    ensures DeviceReading(t, supported, now, d) == HighestThrottle(OutfitOf(Cooling, t, listing), history, limits, now, d)
  {
    assert ReportsDevice(t, supported, d) <==> Reports(Cooling, t, d);
    if Reports(Cooling, t, d) {
      var b := t.domain[d].value;
      assert Faithful(Cooling, d, b, t.node[d], listing, history, limits, grants);
      assert b.level.value.at[..b.len] == b.level.value.at && b.limit.value.at[..b.len] == b.limit.value.at;
      ThrottleIsOverOpenSlots(b, t.node[d], Roster(Cooling, listing, d, b.len), history, limits, b.len);
    }
  }

  lemma {:induction false} ZoneByZone(t: Tables, supported: seq<bool>, zones: Outfit, history: seq<Snapshot>, now: nat, n: nat)
    requires n <= |zones|
    requires forall d :: 0 <= d < n ==> ZoneReading(t, supported, now, d) == HottestZone(zones, history, now, d)
    ensures ZoneReport(t, supported, now, n) == HottestZones(zones, history, now, n)
  {
    if n > 0 {
      ZoneByZone(t, supported, zones, history, now, n - 1);
    }
  }

  lemma {:induction false} DeviceByDevice(t: Tables, supported: seq<bool>, devices: Outfit, history: seq<Snapshot>, limits: Snapshot,
                                          now: nat, n: nat)
    requires n <= |devices| && WellFormed(Cooling, t)
    requires forall d :: 0 <= d < n ==> DeviceReading(t, supported, now, d) == HighestThrottle(devices, history, limits, now, d)
    ensures DeviceReport(t, supported, now, n) == HighestThrottles(devices, history, limits, now, n)
  {
    if n > 0 {
      DeviceByDevice(t, supported, devices, history, limits, now, n - 1);
    }
  }

  lemma {:induction false} ZonesAreReported(t: Tables, listing: seq<Entry>, history: seq<Snapshot>, limits: Snapshot, grants: Grants,
                         supported: seq<bool>, now: nat)
    requires WellFormed(Temperature, t) && Populated(Temperature, t, listing, history, limits, grants)
    requires TEMP_DOMAIN_COUNT <= |supported| && forall d :: 0 <= d < TEMP_DOMAIN_COUNT ==> supported[d] == t.domain[d].Some?
    ensures ZoneReport(t, supported, now, TEMP_DOMAIN_COUNT)
         == HottestZones(OutfitOf(Temperature, t, listing), history, now, TEMP_DOMAIN_COUNT)
  {
    var zones := OutfitOf(Temperature, t, listing);
    forall d | 0 <= d < TEMP_DOMAIN_COUNT
      ensures ZoneReading(t, supported, now, d) == HottestZone(zones, history, now, d)
    {
      ZoneIsReported(t, listing, history, limits, grants, supported, now, d);
    }
    ZoneByZone(t, supported, zones, history, now, TEMP_DOMAIN_COUNT);
  }

  lemma {:induction false} DevicesAreReported(t: Tables, listing: seq<Entry>, history: seq<Snapshot>, limits: Snapshot, grants: Grants,
                           supported: seq<bool>, now: nat)
    requires WellFormed(Cooling, t) && Populated(Cooling, t, listing, history, limits, grants)
    requires |supported| == METRIC_COUNT
    requires forall d :: 0 <= d < COOL_DOMAIN_COUNT ==> supported[FIRST_COOLING_ID + d] == t.domain[d].Some?
    ensures DeviceReport(t, supported, now, COOL_DOMAIN_COUNT)
         == HighestThrottles(OutfitOf(Cooling, t, listing), history, limits, now, COOL_DOMAIN_COUNT)
  {
    var devices := OutfitOf(Cooling, t, listing);
    forall d | 0 <= d < COOL_DOMAIN_COUNT
      ensures DeviceReading(t, supported, now, d) == HighestThrottle(devices, history, limits, now, d)
    {
      DeviceIsReported(t, listing, history, limits, grants, supported, now, d);
    }
    DeviceByDevice(t, supported, devices, history, limits, now, COOL_DOMAIN_COUNT);
  }

  lemma PresenceIsBlocks(temp: Tables, cool: Tables)
    requires WellFormed(Temperature, temp) && WellFormed(Cooling, cool)
    ensures forall d :: 0 <= d < TEMP_DOMAIN_COUNT ==> Presence(temp, cool)[d] == temp.domain[d].Some?
    ensures forall d :: 0 <= d < COOL_DOMAIN_COUNT ==> Presence(temp, cool)[FIRST_COOLING_ID + d] == cool.domain[d].Some?
  {
    forall d | 0 <= d < COOL_DOMAIN_COUNT
      ensures Presence(temp, cool)[FIRST_COOLING_ID + d] == cool.domain[d].Some?
    {
      assert Presence(temp, cool)[FIRST_COOLING_ID + d] == (Present(cool, d) && cool.domain[d].value.len > 0);
      assert cool.domain[d].Some? ==> BlockOk(Cooling, cool.domain[d].value);
    }
  }

  /**
   The whole chain, from the directory to the sample, for any two listings and under
   any failures: each reported value is the maximum of the last good readings of the
   sensors with an open node among the first entries that feed its domain.
   */
  lemma ComputedIsReported(temp: Tables, zones: seq<Entry>, zoneHistory: seq<Snapshot>, zoneLimits: Snapshot,
                           cool: Tables, devices: seq<Entry>, deviceHistory: seq<Snapshot>, limits: Snapshot,
                           grants: Grants, now: nat)
    requires WellFormed(Temperature, temp) && Populated(Temperature, temp, zones, zoneHistory, zoneLimits, grants)
    requires WellFormed(Cooling, cool) && Populated(Cooling, cool, devices, deviceHistory, limits, grants)
    ensures ComputedSample(temp, cool, Presence(temp, cool), now)
         == SampleOf(OutfitOf(Temperature, temp, zones), zoneHistory, OutfitOf(Cooling, cool, devices), deviceHistory, limits, now)
  {
    var supported := Presence(temp, cool);
    PresenceIsBlocks(temp, cool);
    ZonesAreReported(temp, zones, zoneHistory, zoneLimits, grants, supported, now);
    DevicesAreReported(cool, devices, deviceHistory, limits, grants, supported, now);
  }

  // ----- When nothing fails

  /** Every entry of this kind with a readable type has a number after its prefix. */
  ghost predicate Numbered(kind: Kind, listing: seq<Entry>) {
    forall e :: e in listing && IsEntryOf(kind, e) && e.typ.Some? ==> e.number.Some?
  }

  lemma {:induction false} CountedIsFeeding(kind: Kind, listing: seq<Entry>, d: nat)
    requires Numbered(kind, listing)
    ensures CountedFor(kind, listing, d) == |Feeding(kind, listing, d)|
  {
    if listing != [] {
      CountedIsFeeding(kind, listing[..|listing| - 1], d);
    }
  }

  lemma {:induction false} AllOpen(r: seq<Entry>, node: Option<Cells<Option<File>>>, n: nat)
    requires forall e :: e in r ==> e.number.Some?
    requires node.Some? && n <= |r| <= |node.value.at| && forall i :: 0 <= i < |r| ==> node.value.at[i].Some?
    ensures OpenNumbers(r, node, n) == Numbers(r)[..n]
  {
    if n > 0 {
      AllOpen(r, node, n - 1);
    }
  }

  /** Nothing was refused, and the directory did not change between the two passes. */
  ghost predicate Settled(kind: Kind, t: Tables, listing: seq<Entry>, history: seq<Snapshot>, limits: Snapshot) {
    && WellFormed(kind, t) && Numbered(kind, listing)
    && Counted(kind, t, listing, true) && Populated(kind, t, listing, history, limits, Grants(true, true))
  }

  /** Then a domain has a block exactly if it has sensors, and the block holds them all. */
  lemma SettledDomain(kind: Kind, t: Tables, listing: seq<Entry>, history: seq<Snapshot>, limits: Snapshot, d: nat)
    requires Settled(kind, t, listing, history, limits) && d < DomainCount(kind)
    ensures t.domain[d].Some? <==> Sensors(kind, listing, d) != []
    ensures t.domain[d].Some? ==>
      var b := t.domain[d].value;
      var r := Sensors(kind, listing, d);
      Complete(kind, b, t.node[d]) && Holds(kind, b, t.node[d], r, history, limits) && |r| == b.len
      && OpenNumbers(r, t.node[d], b.len) == Numbers(r)
  {
    CountedIsFeeding(kind, listing, d);
    assert CountedAt(kind, d, t.domain[d], listing, true);
    if t.domain[d].Some? {
      var b := t.domain[d].value;
      var r := Sensors(kind, listing, d);
      assert Roster(kind, listing, d, b.len) == r;
      assert Faithful(kind, d, b, t.node[d], listing, history, limits, Grants(true, true));
      AllOpen(r, t.node[d], b.len);
      assert Numbers(r)[..b.len] == Numbers(r);
    }
  }

  /** So every domain reports from the first 32 entries of the directory that classify to it. */
  lemma SettledOutfitIsIdeal(kind: Kind, t: Tables, listing: seq<Entry>, history: seq<Snapshot>, limits: Snapshot)
    requires Settled(kind, t, listing, history, limits)
    ensures OutfitOf(kind, t, listing) == Ideal(kind, listing)
  {
    forall d | 0 <= d < DomainCount(kind)
      ensures OutfitOf(kind, t, listing)[d] == Ideal(kind, listing)[d]
    {
      SettledDomain(kind, t, listing, history, limits, d);
      assert t.domain[d].Some? ==> Roster(kind, listing, d, t.domain[d].value.len) == Sensors(kind, listing, d);
    }
  }

  /** The sample as the documentation means it. */
  function IntendedSample(zones: seq<Entry>, zoneHistory: seq<Snapshot>, devices: seq<Entry>, deviceHistory: seq<Snapshot>,
                          limits: Snapshot, now: nat): seq<Response> {
    SampleOf(Ideal(Temperature, zones), zoneHistory, Ideal(Cooling, devices), deviceHistory, limits, now)
  }

  lemma SampleIsIntended(temp: Tables, zones: seq<Entry>, zoneHistory: seq<Snapshot>, zoneLimits: Snapshot,
                         cool: Tables, devices: seq<Entry>, deviceHistory: seq<Snapshot>, limits: Snapshot, now: nat)
    requires Settled(Temperature, temp, zones, zoneHistory, zoneLimits)
    requires Settled(Cooling, cool, devices, deviceHistory, limits)
    ensures ComputedSample(temp, cool, Presence(temp, cool), now)
         == IntendedSample(zones, zoneHistory, devices, deviceHistory, limits, now)
  {
    ComputedIsReported(temp, zones, zoneHistory, zoneLimits, cool, devices, deviceHistory, limits, Grants(true, true), now);
    SettledOutfitIsIdeal(Temperature, temp, zones, zoneHistory, zoneLimits);
    SettledOutfitIsIdeal(Cooling, cool, devices, deviceHistory, limits);
  }

  // ----- Which ids a sample carries

  /** The domains that are reported, by metric id. */
  function Flags(zones: Outfit, devices: Outfit): (f: seq<bool>)
    ensures |f| == |zones| + |devices|
  {
    seq(|zones| + |devices|, i requires 0 <= i < |zones| + |devices| =>
      if i < |zones| then zones[i].Some? else devices[i - |zones|].Some?)
  }

  lemma {:induction false} ZoneIds(zones: Outfit, devices: Outfit, history: seq<Snapshot>, now: nat, n: nat)
    requires n <= |zones|
    ensures Ids(HottestZones(zones, history, now, n)) == Packed(Flags(zones, devices)[..n])
  {
    if n > 0 {
      ZoneIds(zones, devices, history, now, n - 1);
      PackedPrefix(Flags(zones, devices), n - 1);
    }
  }

  lemma {:induction false} DeviceIds(zones: Outfit, devices: Outfit, history: seq<Snapshot>, limits: Snapshot, now: nat, n: nat)
    requires n <= |devices| && |zones| == FIRST_COOLING_ID
    ensures Packed(Flags(zones, devices)[..|zones|]) + Ids(HighestThrottles(devices, history, limits, now, n))
         == Packed(Flags(zones, devices)[..|zones| + n])
  {
    if n > 0 {
      DeviceIds(zones, devices, history, limits, now, n - 1);
      PackedPrefix(Flags(zones, devices), |zones| + n - 1);
      assert Flags(zones, devices)[|zones| + n - 1] == devices[n - 1].Some?;
    }
  }

  /** The ids of a sample depend on the outfits alone: every sample of a run carries the same ones, in the same order. */
  lemma SampleIds(zones: Outfit, zoneHistory: seq<Snapshot>, devices: Outfit, deviceHistory: seq<Snapshot>, limits: Snapshot, now: nat)
    requires |zones| == FIRST_COOLING_ID
    ensures Ids(SampleOf(zones, zoneHistory, devices, deviceHistory, limits, now)) == Packed(Flags(zones, devices))
  {
    var f := Flags(zones, devices);
    assert f[..|f|] == f;
    ZoneIds(zones, devices, zoneHistory, now, |zones|);
    DeviceIds(zones, devices, deviceHistory, limits, now, |devices|);
    IdsConcat(HottestZones(zones, zoneHistory, now, |zones|), HighestThrottles(devices, deviceHistory, limits, now, |devices|));
  }

  /** Every advertised domain has the arrays its metric is computed from. */
  ghost predicate Unabridged(temp: Tables, cool: Tables) {
    && (forall d :: 0 <= d < TEMP_DOMAIN_COUNT && Present(temp, d) ==> Reports(Temperature, temp, d))
    && (forall d :: 0 <= d < COOL_DOMAIN_COUNT && Present(cool, d) ==> Reports(Cooling, cool, d))
  }

  /** Only advertised domains are reported; if all of them have their arrays, exactly those. */
  lemma OnlyAdvertisedIsReported(temp: Tables, zones: seq<Entry>, cool: Tables, devices: seq<Entry>)
    requires WellFormed(Temperature, temp) && WellFormed(Cooling, cool)
    ensures var f, p := Flags(OutfitOf(Temperature, temp, zones), OutfitOf(Cooling, cool, devices)), Presence(temp, cool);
            |Packed(f)| <= |Packed(p)| && (Unabridged(temp, cool) ==> f == p)
  {
    var f, p := Flags(OutfitOf(Temperature, temp, zones), OutfitOf(Cooling, cool, devices)), Presence(temp, cool);
    PresenceIsBlocks(temp, cool);
    forall i | 0 <= i < METRIC_COUNT
      ensures (f[i] ==> p[i]) && (Unabridged(temp, cool) ==> f[i] == p[i])
    {
      if i < FIRST_COOLING_ID {
        assert f[i] == Reports(Temperature, temp, i) && p[i] == temp.domain[i].Some?;
      } else {
        var d := i - FIRST_COOLING_ID;
        assert f[i] == Reports(Cooling, cool, d) && p[FIRST_COOLING_ID + d] == cool.domain[d].Some?;
      }
    }
    FewerFlags(f, p);
  }

  /** A sample never has more readings than there are advertised metrics; with all arrays, it has exactly those. */
  lemma SampleMatchesAdvertisement(temp: Tables, zones: seq<Entry>, zoneHistory: seq<Snapshot>,
                                   cool: Tables, devices: seq<Entry>, deviceHistory: seq<Snapshot>, limits: Snapshot, now: nat)
    requires WellFormed(Temperature, temp) && WellFormed(Cooling, cool)
    ensures var sample := SampleOf(OutfitOf(Temperature, temp, zones), zoneHistory, OutfitOf(Cooling, cool, devices), deviceHistory, limits, now);
            && |sample| <= |Packed(Presence(temp, cool))|
            && (Unabridged(temp, cool) ==> Ids(sample) == Packed(Presence(temp, cool)))
  {
    SampleIds(OutfitOf(Temperature, temp, zones), zoneHistory, OutfitOf(Cooling, cool, devices), deviceHistory, limits, now);
    OnlyAdvertisedIsReported(temp, zones, cool, devices);
  }

  lemma {:induction false} FewerFlags(f: seq<bool>, p: seq<bool>)
    requires |f| == |p| && forall i :: 0 <= i < |f| && f[i] ==> p[i]
    ensures |Packed(f)| <= |Packed(p)|
  {
    if f != [] {
      FewerFlags(f[..|f| - 1], p[..|p| - 1]);
    }
  }

  /** If memory was never refused, no advertised metric is ever missing, whatever could not be opened or read. */
  lemma GrantedIsUnabridged(temp: Tables, zones: seq<Entry>, zoneHistory: seq<Snapshot>, zoneLimits: Snapshot,
                            cool: Tables, devices: seq<Entry>, deviceHistory: seq<Snapshot>, limits: Snapshot, grants: Grants)
    requires grants.memory
    requires WellFormed(Temperature, temp) && Populated(Temperature, temp, zones, zoneHistory, zoneLimits, grants)
    requires WellFormed(Cooling, cool) && Populated(Cooling, cool, devices, deviceHistory, limits, grants)
    ensures Unabridged(temp, cool)
  {
    forall d | 0 <= d < TEMP_DOMAIN_COUNT && Present(temp, d)
      ensures Reports(Temperature, temp, d)
    {
      assert Faithful(Temperature, d, temp.domain[d].value, temp.node[d], zones, zoneHistory, zoneLimits, grants);
    }
    forall d | 0 <= d < COOL_DOMAIN_COUNT && Present(cool, d)
      ensures Reports(Cooling, cool, d)
    {
      assert Faithful(Cooling, d, cool.domain[d].value, cool.node[d], devices, deviceHistory, limits, grants);
    }
  }

  // ----- Consequences for the reported values

  lemma {:induction false} ZonesMean(zones: Outfit, history: seq<Snapshot>, now: nat, n: nat, r: Response)
    requires n <= |zones|
    ensures r in HottestZones(zones, history, now, n) <==>
            r.id < n && zones[r.id].Some?
            && r == Response(r.id, now, Double(Degrees(PeakLatest(Temperature, history, zones[r.id].value))))
  {
    if n > 0 {
      ZonesMean(zones, history, now, n - 1, r);
    }
  }

  lemma {:induction false} DevicesMean(devices: Outfit, history: seq<Snapshot>, limits: Snapshot, now: nat, n: nat, r: Response)
    requires n <= |devices|
    ensures r in HighestThrottles(devices, history, limits, now, n) <==>
            FIRST_COOLING_ID <= r.id < FIRST_COOLING_ID + n && devices[r.id - FIRST_COOLING_ID].Some?
            && r == Response(r.id, now, Double(ThrottleLatest(history, limits, devices[r.id - FIRST_COOLING_ID].value)))
  {
    if n > 0 {
      DevicesMean(devices, history, limits, now, n - 1, r);
    }
  }

  /** The responses of a sample, one by one: a response is in it exactly if its domain is reported and it has that domain's value. */
  lemma {:induction false} SampleMeans(zones: Outfit, zoneHistory: seq<Snapshot>, devices: Outfit, deviceHistory: seq<Snapshot>,
                    limits: Snapshot, now: nat, r: Response)
    requires |zones| == FIRST_COOLING_ID
    ensures r in SampleOf(zones, zoneHistory, devices, deviceHistory, limits, now) <==>
      if r.id < FIRST_COOLING_ID then
        zones[r.id].Some?
        && r == Response(r.id, now, Double(Degrees(PeakLatest(Temperature, zoneHistory, zones[r.id].value))))
      else
        r.id - FIRST_COOLING_ID < |devices| && devices[r.id - FIRST_COOLING_ID].Some?
        && r == Response(r.id, now, Double(ThrottleLatest(deviceHistory, limits, devices[r.id - FIRST_COOLING_ID].value)))
  {
    ZonesMean(zones, zoneHistory, now, |zones|, r);
    DevicesMean(devices, deviceHistory, limits, now, |devices|, r);
  }

  /** The two histories hold the same readings of the numbered sensors. */
  ghost predicate AgreeOn(a: seq<Snapshot>, b: seq<Snapshot>, numbers: seq<nat>) {
    |a| == |b| && forall i, n :: 0 <= i < |a| && n in numbers ==>
      (n in a[i] <==> n in b[i]) && (n in a[i] ==> a[i][n] == b[i][n])
  }

  lemma {:induction false} SameReadingsSameLatest(kind: Kind, a: seq<Snapshot>, b: seq<Snapshot>, numbers: seq<nat>, n: nat)
    requires AgreeOn(a, b, numbers) && n in numbers
    ensures Latest(kind, a, n) == Latest(kind, b, n)
  {
    if a != [] {
      var k := |a| - 1;
      assert (n in a[k] <==> n in b[k]) && (n in a[k] ==> a[k][n] == b[k][n]);
      SameReadingsSameLatest(kind, a[..k], b[..k], numbers, n);
    }
  }

  lemma {:induction false} SameReadingsSamePeak(kind: Kind, a: seq<Snapshot>, b: seq<Snapshot>, numbers: seq<nat>)
    requires AgreeOn(a, b, numbers)
    ensures PeakLatest(kind, a, numbers) == PeakLatest(kind, b, numbers)
  {
    if numbers != [] {
      var k := |numbers| - 1;
      assert forall n :: n in numbers[..k] ==> n in numbers;
      SameReadingsSamePeak(kind, a, b, numbers[..k]);
      SameReadingsSameLatest(kind, a, b, numbers, numbers[k]);
    }
  }

  lemma {:induction false} SameReadingsSameThrottle(a: seq<Snapshot>, b: seq<Snapshot>, la: Snapshot, lb: Snapshot, numbers: seq<nat>)
    requires AgreeOn(a, b, numbers) && AgreeOn([la], [lb], numbers)
    ensures ThrottleLatest(a, la, numbers) == ThrottleLatest(b, lb, numbers)
  {
    if numbers != [] {
      var k := |numbers| - 1;
      assert forall n :: n in numbers[..k] ==> n in numbers;
      SameReadingsSameThrottle(a, b, la, lb, numbers[..k]);
      SameReadingsSameLatest(Cooling, a, b, numbers, numbers[k]);
      assert (numbers[k] in [la][0] <==> numbers[k] in [lb][0]) && (numbers[k] in [la][0] ==> [la][0][numbers[k]] == [lb][0][numbers[k]]);
    }
  }

  /**
   No sensor influences another domain's metric: two samples taken over histories that
   agree on the sensors of one domain, and on nothing else, have the same response for it.
   */
  lemma OnlyOwnSensorsMatter(zones: Outfit, za: seq<Snapshot>, zb: seq<Snapshot>, devices: Outfit, da: seq<Snapshot>, db: seq<Snapshot>,
                             la: Snapshot, lb: Snapshot, now: nat, r: Response)
    requires |zones| == FIRST_COOLING_ID
    requires r.id < |zones| && zones[r.id].Some? ==> AgreeOn(za, zb, zones[r.id].value)
    requires FIRST_COOLING_ID <= r.id < FIRST_COOLING_ID + |devices| && devices[r.id - FIRST_COOLING_ID].Some? ==>
      var numbers := devices[r.id - FIRST_COOLING_ID].value;
      AgreeOn(da, db, numbers) && AgreeOn([la], [lb], numbers)
    ensures r in SampleOf(zones, za, devices, da, la, now) <==> r in SampleOf(zones, zb, devices, db, lb, now)
  {
    SampleMeans(zones, za, devices, da, la, now, r);
    SampleMeans(zones, zb, devices, db, lb, now, r);
    if r.id < FIRST_COOLING_ID {
      if zones[r.id].Some? {
        SameReadingsSamePeak(Temperature, za, zb, zones[r.id].value);
      }
    } else if r.id - FIRST_COOLING_ID < |devices| && devices[r.id - FIRST_COOLING_ID].Some? {
      SameReadingsSameThrottle(da, db, la, lb, devices[r.id - FIRST_COOLING_ID].value);
    }
  }

  /** Every state that was read is within the device's limit, and both fit the byte they are stored in. */
  ghost predicate SaneStates(history: seq<Snapshot>, limits: Snapshot) {
    && (forall n :: n in limits ==> limits[n] <= 255)
    && (forall i, n :: 0 <= i < |history| && n in history[i] && n in limits ==> history[i][n] <= limits[n])
  }

  lemma {:induction false} LatestWithinLimit(history: seq<Snapshot>, limits: Snapshot, n: nat)
    requires SaneStates(history, limits) && n in limits
    ensures Latest(Cooling, history, n) <= Reading(Cooling, limits, n) == limits[n]
  {
    if history != [] {
      var k := |history| - 1;
      assert SaneStates(history[..k], limits);
      LatestWithinLimit(history[..k], limits, n);
    }
  }

  /** A throttle level is a percentage, whatever reads failed in between. */
  lemma {:induction false} ThrottleIsAPercentage(history: seq<Snapshot>, limits: Snapshot, numbers: seq<nat>)
    requires SaneStates(history, limits)
    ensures 0.0 <= ThrottleLatest(history, limits, numbers) <= 100.0
  {
    if numbers != [] {
      var n := numbers[|numbers| - 1];
      ThrottleIsAPercentage(history, limits, numbers[..|numbers| - 1]);
      if n in limits {
        LatestWithinLimit(history, limits, n);
      }
      PercentIsNonNegative(Latest(Cooling, history, n), Reading(Cooling, limits, n));
    }
  }

  /** So every cooling response of a sample is in [0, 100]. */
  lemma CoolingIsAPercentage(zones: Outfit, zoneHistory: seq<Snapshot>, devices: Outfit, deviceHistory: seq<Snapshot>,
                             limits: Snapshot, now: nat, r: Response)
    requires |zones| == FIRST_COOLING_ID && SaneStates(deviceHistory, limits)
    requires r in SampleOf(zones, zoneHistory, devices, deviceHistory, limits, now) && r.id >= FIRST_COOLING_ID
    ensures r.value.Double? && 0.0 <= r.value.x <= 100.0
  {
    SampleMeans(zones, zoneHistory, devices, deviceHistory, limits, now, r);
    ThrottleIsAPercentage(deviceHistory, limits, devices[r.id - FIRST_COOLING_ID].value);
  }

  /** The reported throttle is that of one of the devices, in percent of its limit, and none throttles more. */
  lemma {:induction false} ThrottleIsTheMaximum(history: seq<Snapshot>, limits: Snapshot, numbers: seq<nat>)
    ensures forall n :: n in numbers && Reading(Cooling, limits, n) > 0 ==>
              Latest(Cooling, history, n) as real / Reading(Cooling, limits, n) as real * 100.0 <= ThrottleLatest(history, limits, numbers)
    ensures ThrottleLatest(history, limits, numbers) == 0.0
         || exists n :: n in numbers && Reading(Cooling, limits, n) > 0
              && Latest(Cooling, history, n) as real / Reading(Cooling, limits, n) as real * 100.0 == ThrottleLatest(history, limits, numbers)
  {
    if numbers != [] {
      var rest, last := numbers[..|numbers| - 1], numbers[|numbers| - 1];
      ThrottleIsTheMaximum(history, limits, rest);
      assert forall n :: n in numbers ==> n in rest || n == last;
      assert last in numbers && forall n :: n in rest ==> n in numbers;
    }
  }

  /** The hottest reading is one of the last good readings, and none is hotter. */
  lemma {:induction false} PeakIsTheMaximum(kind: Kind, history: seq<Snapshot>, numbers: seq<nat>)
    ensures forall n :: n in numbers ==> Latest(kind, history, n) <= PeakLatest(kind, history, numbers)
    ensures PeakLatest(kind, history, numbers) == 0
         || exists n :: n in numbers && Latest(kind, history, n) == PeakLatest(kind, history, numbers)
  {
    if numbers != [] {
      var rest, last := numbers[..|numbers| - 1], numbers[|numbers| - 1];
      PeakIsTheMaximum(kind, history, rest);
      assert forall n :: n in numbers ==> n in rest || n == last;
      assert last in numbers && forall n :: n in rest ==> n in numbers;
    }
  }
}
