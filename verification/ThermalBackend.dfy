/**
 The Linux thermal backend: what it advertises, how it is set up and torn down,
 and the sampling thread that reports through a fixed response array.
 */
module ThermalBackends {
  import opened Common
  import opened Classification
  import opened Resources
  import opened Responses
  import opened SensorSpec
  import opened SensorTables
  import opened SensorViews
  import opened ThermalLibraries
  import opened ThermalReport
  import HandOver
  import Stream

  const CAPABILITY_ID: nat := 0
  const STREAMING_RATES: seq<nat> := [200, 500, 1000, 2000]
  const SAMPLING_RATES: seq<nat> := [50, 100, 200, 500, 1000]
  const MAX_RATES: nat := 32   // MAX_SAMPLING_STREAMING_RATES_LEN

  datatype Request = Request(capability: nat, streaming: nat, sampling: nat)

  /** One loop iteration of the sampling thread: what could be read, and the clock. */
  datatype Tick = Tick(zones: Snapshot, devices: Snapshot, now: nat)

  function ZoneReads(ticks: seq<Tick>): seq<Snapshot> {
    seq(|ticks|, i requires 0 <= i < |ticks| => ticks[i].zones)
  }

  function DeviceReads(ticks: seq<Tick>): seq<Snapshot> {
    seq(|ticks|, i requires 0 <= i < |ticks| => ticks[i].devices)
  }

  function Clock(ticks: seq<Tick>): seq<nat> {
    seq(|ticks|, i requires 0 <= i < |ticks| => ticks[i].now)
  }

  /** What a run starts from: the sensors that are reported, and the readings before it. */
  datatype Origin = Origin(zones: Outfit, zoneHistory: seq<Snapshot>,
                           devices: Outfit, deviceHistory: seq<Snapshot>, limits: Snapshot)

  /** One sample from here. */
  function SampleAt(o: Origin, now: nat): seq<Response> {
    SampleOf(o.zones, o.zoneHistory, o.devices, o.deviceHistory, o.limits, now)
  }

  /** o after the readings of the ticks. */
  function Later(o: Origin, ticks: seq<Tick>): Origin {
    o.(zoneHistory := o.zoneHistory + ZoneReads(ticks), deviceHistory := o.deviceHistory + DeviceReads(ticks))
  }

  /** The samples of a run: each reports the last good readings up to its own. */
  function ReportedSamples(o: Origin, ticks: seq<Tick>): (s: seq<seq<Response>>)
    ensures |s| == |ticks|
  {
    seq(|ticks|, k requires 0 <= k < |ticks| => SampleAt(Later(o, ticks[..k + 1]), ticks[k].now))
  }

  /** When the windows of a session are due. */
  function TermsOf(request: Request, start: nat): HandOver.Terms {
    HandOver.Terms(Stream.CloseWhenDue, request.streaming, request.sampling, start)
  }

  /** metrics is metric_ids_list, of which the first metricsLen entries are used. */
  datatype Capability = Capability(ptr: nat, metrics: Option<Cells<nat>>, metricsLen: nat,
                                   id: nat, streaming: seq<nat>, sampling: seq<nat>)

  lemma RefreshKeepsPresence(t0: Tables, c0: Tables, t1: Tables, c1: Tables)
    requires Relevelled(t0, t1) && Relevelled(c0, c1)
    ensures Presence(t0, c0) == Presence(t1, c1)
  {
    forall i | 0 <= i < METRIC_COUNT
      ensures Presence(t0, c0)[i] == Presence(t1, c1)[i]
    {
      if i < FIRST_COOLING_ID {
        assert Present(t0, i) == Present(t1, i) && (i < |t0.domain| ==> RelevelledAt(t0.domain[i], t1.domain[i]));
      } else {
        var d := i - FIRST_COOLING_ID;
        assert Present(c0, d) == Present(c1, d) && (d < |c0.domain| ==> RelevelledAt(c0.domain[d], c1.domain[d]));
      }
    }
  }

  class ThermalBackend {
    const lib: ThermalLibrary
    const env: Environment
    var caps: Option<Capability>
    var capsLen: nat
    var callback: bool   // whether a data callback is registered

    ghost const footprint: set<object>

    ghost predicate Layout()
      reads this, lib
    {
      && lib.Layout() && this !in lib.footprint && env !in lib.footprint
      && env.grants == lib.grants && footprint == {this, env} + lib.footprint
    }

    /** The advertisement matches what the library found. */
    ghost predicate Advertised()
      reads this, env, lib, lib.temp, lib.cool
    {
      && capsLen == 1 && caps.Some? && caps.value.metrics.Some?
      && env.live == map[caps.value.ptr := CapabilitySlot, caps.value.metrics.value.ptr := MetricListSlot]
      && caps.value.ptr != caps.value.metrics.value.ptr
      && caps.value.id == CAPABILITY_ID
      && caps.value.streaming == STREAMING_RATES && caps.value.sampling == SAMPLING_RATES
      && |caps.value.metrics.value.at| == METRIC_COUNT && caps.value.metricsLen <= METRIC_COUNT
      && caps.value.metrics.value.at[..caps.value.metricsLen] == Packed(Presence(lib.temp.tab, lib.cool.tab))
      && lib.temp.discovered && lib.cool.discovered
    }

    /** Backend and library agree: both are set up, or neither is and nothing is allocated. */
    ghost predicate Valid()
      reads this, env, lib, lib.temp, lib.cool, lib.temp.env, lib.cool.env
    {
      && Layout() && env.Valid() && lib.Valid()
      && if lib.initialized then Advertised() else caps.None? && capsLen == 0 && env.live == map[]
    }

    constructor (grants: Grants)
      ensures Valid() && !lib.initialized && !callback && fresh(footprint)
    {
      var l := new ThermalLibrary(grants);
      var e := new Environment(grants);
      lib, env := l, e;
      caps, capsLen, callback := None, 0, false;
      footprint := {this, e} + l.footprint;
    }

    // ----- Advertisement

    /** linux_thermal_mark_present, for metrics that have been discovered. */
    method MarkPresent(present: array<bool>)
      requires present.Length == METRIC_COUNT
      requires WellFormed(Temperature, lib.temp.tab) && WellFormed(Cooling, lib.cool.tab)
      modifies present
      ensures present[..] == Presence(lib.temp.tab, lib.cool.tab)
    {
      ghost var p := Presence(lib.temp.tab, lib.cool.tab);
      for d := 0 to METRIC_COUNT {
        present[d] := false;
      }
      for d := 0 to TEMP_DOMAIN_COUNT
        invariant forall i :: 0 <= i < d ==> present[i] == p[i]
      {
        present[d] := lib.temp.tab.domain[d].Some? && lib.temp.tab.domain[d].value.len > 0;
      }
      for d := 0 to COOL_DOMAIN_COUNT
        invariant forall i :: 0 <= i < FIRST_COOLING_ID + d ==> present[i] == p[i]
      {
        present[FIRST_COOLING_ID + d] := lib.cool.tab.domain[d].Some? && lib.cool.tab.domain[d].value.len > 0;
        assert p[FIRST_COOLING_ID + d] == (Present(lib.cool.tab, d) && lib.cool.tab.domain[d].value.len > 0);
      }
      assert present[..] == p;
    }

    /** linux_thermal_init_available_metrics: metric i of the table has id i. */
    static method PackMetrics(present: array<bool>, metrics: array<nat>) returns (count: nat)
      requires present.Length == METRIC_COUNT == metrics.Length
      modifies metrics
      ensures count <= METRIC_COUNT && metrics[..count] == Packed(present[..])
    {
      count := 0;
      for i := 0 to METRIC_COUNT
        invariant count <= i && metrics[..count] == Packed(present[..i])
      {
        PackedPrefix(present[..], i);
        assert present[..][..i + 1] == present[..i + 1] && present[..][..i] == present[..i];
        if present[i] {
          metrics[count] := i;
          count := count + 1;
          assert metrics[..count] == metrics[..count - 1] + [i];
        }
      }
      assert present[..METRIC_COUNT] == present[..];
    }

    /** The collector's supported[]: the flags of the advertised ids. */
    method RebuildSupported(supported: array<bool>)
      requires Valid() && lib.initialized && supported.Length == METRIC_COUNT
      requires forall i :: 0 <= i < METRIC_COUNT ==> !supported[i]
      modifies supported
      ensures supported[..] == Presence(lib.temp.tab, lib.cool.tab)
    {
      ghost var p := Presence(lib.temp.tab, lib.cool.tab);
      ghost var ids := Packed(p);
      var list := caps.value.metrics.value.at;
      assert forall i :: 0 <= i < caps.value.metricsLen ==> list[i] == ids[i];
      for i := 0 to caps.value.metricsLen
        invariant forall k: nat :: k < METRIC_COUNT ==> (supported[k] <==> k in ids[..i])
      {
        if list[i] < METRIC_COUNT {
          supported[list[i]] := true;
        }
        assert ids[..i + 1] == ids[..i] + [ids[i]];
      }
      assert ids[..caps.value.metricsLen] == ids;
      forall k: nat | k < METRIC_COUNT ensures supported[k] == p[k] {
        PackingKeepsExactly(p, k);
      }
      assert supported[..] == p;
    }

    /** The capability blocks, as far as they were allocated, are what the backend owns. */
    ghost predicate Releasable()
      reads this, env
    {
      env.Valid() && match caps
      case None => env.live == map[]
      case Some(c) =>
        if c.metrics.None? then env.live == map[c.ptr := CapabilitySlot]
        else c.ptr != c.metrics.value.ptr
             && env.live == map[c.ptr := CapabilitySlot, c.metrics.value.ptr := MetricListSlot]
    }

    /** linux_thermal_free_backend_info */
    method FreeBackendInfo()
      requires Releasable()
      modifies this`caps, this`capsLen, env`live
      ensures env.Valid() && caps.None? && capsLen == 0 && env.live == map[]
    {
      if caps.Some? {
        if caps.value.metrics.Some? {
          env.Free(caps.value.metrics.value.ptr);
          caps := Some(caps.value.(metrics := None));
        }
        env.Free(caps.value.ptr);
        caps := None;
      }
      capsLen := 0;
    }

    static method CopyRates(rates: seq<nat>) returns (copy: seq<nat>)
      requires |rates| <= MAX_RATES
      ensures copy == rates
    {
      copy := [];
      var i := 0;
      while i < |rates| && i < MAX_RATES
        invariant i <= |rates| && copy == rates[..i]
      {
        copy := copy + [rates[i]];
        i := i + 1;
      }
    }

    /** The allocation and filling of the capability; on failure it may be left half built. */
    method Advertise() returns (code: ReturnCode)
      requires Layout() && Releasable() && caps.None? && capsLen == 0
      requires lib.Valid() && lib.initialized && lib.temp.discovered && lib.cool.discovered
      modifies this`caps, this`capsLen, env
      ensures Releasable()
      ensures code == if caps.Some? && caps.value.metrics.Some? then Success else CallocFailed
      ensures env.grants.memory ==> code == Success
      ensures code == Success ==> Advertised()
    {
      var present := new bool[METRIC_COUNT];
      MarkPresent(present);
      AllocateCapability();
      if caps.None? || caps.value.metrics.None? {
        return CallocFailed;
      }
      FillCapability(present);
      return Success;
    }

    method AllocateCapability()
      requires Releasable() && caps.None?
      modifies this`caps, env
      ensures Releasable()
      ensures env.grants.memory ==> caps.Some? && caps.value.metrics.Some?
      ensures caps.Some? && caps.value.metrics.Some? ==> |caps.value.metrics.value.at| == METRIC_COUNT
    {
      var list := env.Calloc(CapabilitySlot);
      if list.Some? {
        caps := Some(Capability(list.value, None, 0, 0, [], []));
        var ids := env.Calloc(MetricListSlot);
        if ids.Some? {
          caps := Some(caps.value.(metrics := Some(Cells(ids.value, seq(METRIC_COUNT, _ => 0)))));
        }
      }
    }

    method FillCapability(present: array<bool>)
      requires Releasable() && caps.Some? && caps.value.metrics.Some? && present.Length == METRIC_COUNT
      modifies this`caps, this`capsLen
      ensures Releasable() && capsLen == 1 && caps.Some? && caps.value.metrics.Some?
      ensures caps.value.id == CAPABILITY_ID && caps.value.streaming == STREAMING_RATES && caps.value.sampling == SAMPLING_RATES
      ensures |caps.value.metrics.value.at| == METRIC_COUNT && caps.value.metricsLen <= METRIC_COUNT
      ensures caps.value.metrics.value.at[..caps.value.metricsLen] == Packed(present[..])
    {
      var metrics := new nat[METRIC_COUNT](_ => 0);
      var count := PackMetrics(present, metrics);
      var streaming := CopyRates(STREAMING_RATES);
      var sampling := CopyRates(SAMPLING_RATES);
      assert metrics[..][..count] == metrics[..count];
      var c := caps.value;
      caps := Some(Capability(c.ptr, Some(c.metrics.value.(at := metrics[..])), count, CAPABILITY_ID, streaming, sampling));
      capsLen := 1;
    }

    // ----- Lifecycle

    /**
     linux_thermal_init. dir, zoneDir and deviceDir are the directory as the three
     passes over it see it; the snapshots are the readings that succeed during discovery.
     On any failure, also when the library was already initialized, everything is released.
     */
    method Init(dir: Option<seq<Entry>>, zoneDir: Option<seq<Entry>>, deviceDir: Option<seq<Entry>>,
                zones: Snapshot, devices: Snapshot, limits: Snapshot) returns (code: ReturnCode)
      requires Valid()
      modifies footprint
      ensures Valid() && callback == old(callback)
      ensures lib.initialized <==> code == Success
      ensures old(lib.initialized) ==> code == AlreadyInitialized
      ensures !old(lib.initialized) && dir.None? ==> code == Failed
      ensures !old(lib.initialized) && dir.Some? && lib.grants.memory ==> code == Success
      ensures code == Success ==>
        lib.temp.counted == dir.value == lib.cool.counted
        && lib.temp.listing == (if zoneDir.Some? then zoneDir.value else []) && lib.temp.history == [zones]
        && lib.cool.listing == (if deviceDir.Some? then deviceDir.value else []) && lib.cool.history == [devices]
        && lib.cool.limits == limits
    {
      code := SetUp(dir, zoneDir, deviceDir, zones, devices, limits);
      if code != Success {
        TearDown();
      }
    }

    method SetUp(dir: Option<seq<Entry>>, zoneDir: Option<seq<Entry>>, deviceDir: Option<seq<Entry>>,
                 zones: Snapshot, devices: Snapshot, limits: Snapshot) returns (code: ReturnCode)
      requires Valid()
      modifies this`caps, this`capsLen, env, lib.footprint
      ensures Layout() && Releasable() && lib.Valid()
      ensures old(lib.initialized) ==> code == AlreadyInitialized
      ensures !old(lib.initialized) && dir.None? ==> code == Failed
      ensures !old(lib.initialized) && dir.Some? && lib.grants.memory ==> code == Success
      ensures code == Success ==>
        lib.initialized && Advertised()
        && lib.temp.counted == dir.value == lib.cool.counted
        && lib.temp.listing == (if zoneDir.Some? then zoneDir.value else []) && lib.temp.history == [zones]
        && lib.cool.listing == (if deviceDir.Some? then deviceDir.value else []) && lib.cool.history == [devices]
        && lib.cool.limits == limits
    {
      code := lib.Init(dir);
      if code == Success {
        code := DiscoverAndAdvertise(zoneDir, deviceDir, zones, devices, limits);
      }
    }

    /** What every failure of init and every deinit does. */
    method TearDown()
      requires Layout() && Releasable() && lib.Valid()
      modifies this`caps, this`capsLen, env, lib.footprint
      ensures Valid() && !lib.initialized
    {
      FreeBackendInfo();
      var _ := lib.Cleanup();
    }

    method DiscoverAndAdvertise(zoneDir: Option<seq<Entry>>, deviceDir: Option<seq<Entry>>,
                                zones: Snapshot, devices: Snapshot, limits: Snapshot) returns (code: ReturnCode)
      requires Layout() && Releasable() && caps.None? && capsLen == 0
      requires lib.Valid() && lib.initialized && !lib.temp.discovered && !lib.cool.discovered
      modifies this`caps, this`capsLen, env, lib.temp, lib.temp.env, lib.cool, lib.cool.env
      ensures Layout() && Releasable() && lib.Valid()
      ensures lib.temp.counted == old(lib.temp.counted) && lib.cool.counted == old(lib.cool.counted)
      ensures lib.temp.listing == (if zoneDir.Some? then zoneDir.value else []) && lib.temp.history == [zones]
      ensures lib.cool.listing == (if deviceDir.Some? then deviceDir.value else []) && lib.cool.history == [devices]
      ensures lib.cool.limits == limits
      ensures code == Success ==> Advertised()
      ensures code == Success || (code == CallocFailed && !lib.grants.memory)
    {
      var _ := lib.DiscoverZones(true, zoneDir, zones);
      var _ := lib.DiscoverDevices(true, deviceDir, devices, limits);
      code := Advertise();
    }

    /** linux_thermal_deinit */
    method Deinit() returns (code: ReturnCode)
      requires Valid()
      modifies footprint
      ensures Valid() && !lib.initialized && !callback && code == Success
    {
      TearDown();
      callback := false;
      return Success;
    }

    /** linux_thermal_set_data_callback; given tells whether the argument is non-NULL. */
    method SetDataCallback(given: bool) returns (code: ReturnCode)
      modifies this`callback
      ensures code == if !given then InvalidArguments else if old(callback) then CallbackAlreadySet else Success
      ensures callback == (old(callback) || given)
    {
      if !given {
        return InvalidArguments;
      }
      if callback {
        return CallbackAlreadySet;
      }
      callback := true;
      return Success;
    }

    /** validate_request */
    method ValidateRequest(request: Request) returns (code: ReturnCode)
      requires Valid()
      ensures code == Success <==>
        lib.initialized && request.capability == CAPABILITY_ID
        && request.sampling in SAMPLING_RATES && request.streaming in STREAMING_RATES
      ensures code == CapabilityNotFound <==> !lib.initialized || request.capability != CAPABILITY_ID
      ensures code in {Success, CapabilityNotFound, InvalidArguments}
    {
      if capsLen == 0 || caps.value.id != request.capability {
        return CapabilityNotFound;
      }
      var ok := RateListed(caps.value.sampling, request.sampling);
      if ok {
        ok := RateListed(caps.value.streaming, request.streaming);
      }
      return if ok then Success else InvalidArguments;
    }

    static method RateListed(rates: seq<nat>, rate: nat) returns (found: bool)
      ensures found <==> rate in rates
    {
      for i := 0 to |rates|
        invariant rate !in rates[..i]
      {
        if rates[i] == rate {
          return true;
        }
      }
      return false;
    }

    // ----- The sampling thread

    static method MaxLevel(level: seq<nat>) returns (max: nat)
      ensures max == Peak(level)
      ensures forall j :: 0 <= j < |level| ==> level[j] <= max
      ensures max == 0 || max in level
    {
      max := 0;
      for i := 0 to |level|
        invariant max == Peak(level[..i])
        invariant forall j :: 0 <= j < i ==> level[j] <= max
        invariant max == 0 || max in level
      {
        assert level[..i + 1][..i] == level[..i];
        if level[i] > max {
          max := level[i];
        }
      }
      assert level[..|level|] == level;
    }

    static method MaxThrottle(level: seq<nat>, limit: seq<nat>) returns (max: real)
      requires |level| == |limit|
      ensures max == Throttle(level, limit) >= 0.0
      ensures forall j :: 0 <= j < |level| && limit[j] > 0 ==> level[j] as real / limit[j] as real * 100.0 <= max
      ensures max == 0.0 || exists j :: 0 <= j < |level| && limit[j] > 0 && level[j] as real / limit[j] as real * 100.0 == max
    {
      max := 0.0;
      for i := 0 to |level|
        invariant max == Throttle(level[..i], limit[..i]) >= 0.0
        invariant forall j :: 0 <= j < i && limit[j] > 0 ==> level[j] as real / limit[j] as real * 100.0 <= max
        invariant max == 0.0 || exists j :: 0 <= j < i && limit[j] > 0 && level[j] as real / limit[j] as real * 100.0 == max
      {
        assert level[..i + 1][..i] == level[..i] && limit[..i + 1][..i] == limit[..i];
        if limit[i] > 0 {
          var pct := level[i] as real / limit[i] as real * 100.0;
          if pct > max {
            max := pct;
          }
        }
      }
      assert level[..|level|] == level && limit[..|limit|] == limit;
    }

    /** One metric per reported temperature domain, as long as the array has room. */
    method EmitZones(buf: array<Response>, position: nat, supported: array<bool>, now: nat) returns (end: nat)
      requires WellFormed(Temperature, lib.temp.tab)
      requires position <= buf.Length && supported.Length == METRIC_COUNT
      modifies buf
      ensures end <= buf.Length
      ensures buf[..end] == Take(old(buf[..position]) + ZoneReport(lib.temp.tab, supported[..], now, TEMP_DOMAIN_COUNT), buf.Length)
    {
      end := position;
      ghost var t, flags, before := lib.temp.tab, supported[..], buf[..position];
      var d := 0;
      while d < TEMP_DOMAIN_COUNT && end < buf.Length
        invariant d <= TEMP_DOMAIN_COUNT && end <= buf.Length && supported[..] == flags && lib.temp.tab == t
        invariant buf[..end] == Take(before + ZoneReport(t, flags, now, d), buf.Length)
      {
        end := EmitZone(buf, end, d, supported, now);
        TakeNext(before, ZoneReport(t, flags, now, d), ZoneReading(t, flags, now, d), buf.Length);
        d := d + 1;
      }
      ZoneReportGrows(t, flags, now, d, TEMP_DOMAIN_COUNT);
      TakeFull(before, ZoneReport(t, flags, now, d), ZoneReport(t, flags, now, TEMP_DOMAIN_COUNT), buf.Length);
    }

    method EmitZone(buf: array<Response>, position: nat, d: nat, supported: array<bool>, now: nat) returns (end: nat)
      requires WellFormed(Temperature, lib.temp.tab) && d < TEMP_DOMAIN_COUNT
      requires position < buf.Length && supported.Length == METRIC_COUNT
      modifies buf
      ensures end <= buf.Length
      ensures buf[..end] == old(buf[..position]) + ZoneReading(lib.temp.tab, supported[..], now, d)
    {
      end := position;
      var b := lib.temp.tab.domain[d];
      if supported[d] && b.Some? && b.value.level.Some? && b.value.len != 0 {
        var max := MaxLevel(b.value.level.value.at);
        end := Stream.Put(buf, end, Response(d, now, Double(Degrees(max))));
      }
    }

    /** One metric per reported cooling domain, as long as the array has room. */
    method EmitDevices(buf: array<Response>, position: nat, supported: array<bool>, now: nat) returns (end: nat)
      requires WellFormed(Cooling, lib.cool.tab)
      requires position <= buf.Length && supported.Length == METRIC_COUNT
      modifies buf
      ensures end <= buf.Length
      ensures buf[..end] == Take(old(buf[..position]) + DeviceReport(lib.cool.tab, supported[..], now, COOL_DOMAIN_COUNT), buf.Length)
    {
      end := position;
      ghost var t, flags, before := lib.cool.tab, supported[..], buf[..position];
      var d := 0;
      while d < COOL_DOMAIN_COUNT && end < buf.Length
        invariant d <= COOL_DOMAIN_COUNT && end <= buf.Length && supported[..] == flags && lib.cool.tab == t
        invariant buf[..end] == Take(before + DeviceReport(t, flags, now, d), buf.Length)
      {
        end := EmitDevice(buf, end, d, supported, now);
        TakeNext(before, DeviceReport(t, flags, now, d), DeviceReading(t, flags, now, d), buf.Length);
        d := d + 1;
      }
      DeviceReportGrows(t, flags, now, d, COOL_DOMAIN_COUNT);
      TakeFull(before, DeviceReport(t, flags, now, d), DeviceReport(t, flags, now, COOL_DOMAIN_COUNT), buf.Length);
    }

    method EmitDevice(buf: array<Response>, position: nat, d: nat, supported: array<bool>, now: nat) returns (end: nat)
      requires WellFormed(Cooling, lib.cool.tab) && d < COOL_DOMAIN_COUNT
      requires position < buf.Length && supported.Length == METRIC_COUNT
      modifies buf
      ensures end <= buf.Length
      ensures buf[..end] == old(buf[..position]) + DeviceReading(lib.cool.tab, supported[..], now, d)
    {
      end := position;
      var b := lib.cool.tab.domain[d];
      if supported[FIRST_COOLING_ID + d] && b.Some? && b.value.level.Some? && b.value.limit.Some? && b.value.len != 0 {
        var max := MaxThrottle(b.value.level.value.at, b.value.limit.value.at);
        end := Stream.Put(buf, end, Response(FIRST_COOLING_ID + d, now, Double(max)));
      }
    }

    /** Nothing is refused, and the directory is the same in every pass, with numbered entries. */
    ghost predicate Steady()
      reads lib, lib.temp, lib.cool
    {
      && lib.grants == Grants(true, true)
      && lib.temp.counted == lib.temp.listing && Numbered(Temperature, lib.temp.listing)
      && lib.cool.counted == lib.cool.listing && Numbered(Cooling, lib.cool.listing)
    }

    /** Where the next run starts: the open nodes that discovery left, and the readings so far. */
    ghost function Origins(): Origin
      reads lib, lib.temp, lib.cool
    {
      Origin(OutfitOf(Temperature, lib.temp.tab, lib.temp.listing), lib.temp.history,
             OutfitOf(Cooling, lib.cool.tab, lib.cool.listing), lib.cool.history, lib.cool.limits)
    }

    /** Where it starts if every domain reports all its sensors. */
    ghost function IdealOrigins(): Origin
      reads lib, lib.temp, lib.cool
    {
      Origin(Ideal(Temperature, lib.temp.listing), lib.temp.history,
             Ideal(Cooling, lib.cool.listing), lib.cool.history, lib.cool.limits)
    }

    lemma SteadyIsIdeal()
      requires Valid() && lib.initialized && Steady()
      ensures Origins() == IdealOrigins()
    {
      SettledOutfitIsIdeal(Temperature, lib.temp.tab, lib.temp.listing, lib.temp.history, lib.temp.limits);
      SettledOutfitIsIdeal(Cooling, lib.cool.tab, lib.cool.listing, lib.cool.history, lib.cool.limits);
    }

    ghost function AdvertisedIds(): seq<nat>
      requires caps.Some? && caps.value.metrics.Some? && caps.value.metricsLen <= |caps.value.metrics.value.at|
      reads this
    {
      caps.value.metrics.value.at[..caps.value.metricsLen]
    }

    /** With memory granted every sample of a run carries the advertised ids, in their order. */
    lemma SamplesCarryTheAdvertisedIds(ticks: seq<Tick>)
      requires Valid() && lib.initialized && lib.grants.memory
      ensures forall k :: 0 <= k < |ticks| ==> Ids(ReportedSamples(Origins(), ticks)[k]) == AdvertisedIds()
    {
      var o := Origins();
      GrantedIsUnabridged(lib.temp.tab, lib.temp.listing, lib.temp.history, lib.temp.limits,
                          lib.cool.tab, lib.cool.listing, lib.cool.history, lib.cool.limits, lib.grants);
      OnlyAdvertisedIsReported(lib.temp.tab, lib.temp.listing, lib.cool.tab, lib.cool.listing);
      SamplesShareTheirIds(o, ticks);
    }

    /** The discipline of the run; its capacity is the length of the response array. */
    function Discipline(request: Request): Stream.Config
      requires caps.Some? && 0 < request.sampling
      reads this
    {
      Stream.Discipline(Stream.CloseWhenDue, request.streaming, request.sampling, caps.value.metricsLen)
    }

    /** One iteration's readings, refreshed and emitted behind the pending ones. */
    method Sample(tick: Tick, discipline: Stream.Config, buf: array<Response>, position: nat, supported: array<bool>)
        returns (end: nat)
      requires Valid() && lib.initialized && position <= buf.Length == discipline.capacity
      requires supported.Length == METRIC_COUNT && supported[..] == Presence(lib.temp.tab, lib.cool.tab)
      modifies buf, lib.temp`tab, lib.temp`history, lib.cool`tab, lib.cool`history
      ensures Valid() && supported[..] == Presence(lib.temp.tab, lib.cool.tab)
      ensures Origins() == Later(old(Origins()), [tick])
      ensures end <= buf.Length
      ensures var before, sample := old(buf[..position]), SampleAt(Origins(), tick.now);
              buf[..end] == before + Stream.Kept(discipline, before, sample) && |sample| <= caps.value.metricsLen
    {
      ghost var before := buf[..position];
      RefreshAll(tick);
      end := EmitZones(buf, position, supported, tick.now);
      end := EmitDevices(buf, end, supported, tick.now);
      TwoTakes(before, ZoneReport(lib.temp.tab, supported[..], tick.now, TEMP_DOMAIN_COUNT),
               DeviceReport(lib.cool.tab, supported[..], tick.now, COOL_DOMAIN_COUNT), discipline);
      TablesReport(tick.now);
    }

    /** Both views take one more pass. */
    method RefreshAll(tick: Tick)
      requires Valid() && lib.initialized
      modifies lib.temp`tab, lib.temp`history, lib.cool`tab, lib.cool`history
      ensures Valid() && Presence(lib.temp.tab, lib.cool.tab) == old(Presence(lib.temp.tab, lib.cool.tab))
      ensures Origins() == Later(old(Origins()), [tick])
    {
      RefreshZones(tick);
      RefreshDevices(tick);
    }

    method RefreshZones(tick: Tick)
      requires Valid() && lib.initialized
      modifies lib.temp`tab, lib.temp`history
      ensures Valid() && Presence(lib.temp.tab, lib.cool.tab) == old(Presence(lib.temp.tab, lib.cool.tab))
      ensures Origins() == old(Origins()).(zoneHistory := old(Origins()).zoneHistory + [tick.zones])
    {
      ghost var t0 := lib.temp.tab;
      var _ := lib.ZonesInfo(true, tick.zones);
      assert Relevelled(lib.cool.tab, lib.cool.tab);
      RefreshKeepsPresence(t0, lib.cool.tab, lib.temp.tab, lib.cool.tab);
      RefreshKeepsOutfit(Temperature, t0, lib.temp.tab, lib.temp.listing);
    }

    method RefreshDevices(tick: Tick)
      requires Valid() && lib.initialized
      modifies lib.cool`tab, lib.cool`history
      ensures Valid() && Presence(lib.temp.tab, lib.cool.tab) == old(Presence(lib.temp.tab, lib.cool.tab))
      ensures Origins() == old(Origins()).(deviceHistory := old(Origins()).deviceHistory + [tick.devices])
    {
      ghost var c0 := lib.cool.tab;
      var _ := lib.DevicesInfo(true, tick.devices);
      assert Relevelled(lib.temp.tab, lib.temp.tab);
      RefreshKeepsPresence(lib.temp.tab, c0, lib.temp.tab, lib.cool.tab);
      RefreshKeepsOutfit(Cooling, c0, lib.cool.tab, lib.cool.listing);
    }

    /** What the tables hold is what is to be reported, and is no more than what is advertised. */
    lemma TablesReport(now: nat)
      requires Valid() && lib.initialized
      ensures ComputedSample(lib.temp.tab, lib.cool.tab, Presence(lib.temp.tab, lib.cool.tab), now) == SampleAt(Origins(), now)
      ensures |SampleAt(Origins(), now)| <= caps.value.metricsLen
    {
      ComputedIsReported(lib.temp.tab, lib.temp.listing, lib.temp.history, lib.temp.limits,
                         lib.cool.tab, lib.cool.listing, lib.cool.history, lib.cool.limits, lib.grants, now);
      SampleMatchesAdvertisement(lib.temp.tab, lib.temp.listing, lib.temp.history,
                                 lib.cool.tab, lib.cool.listing, lib.cool.history, lib.cool.limits, now);
    }

    /**
     linux_thermal_collect_data. The thread finds its running flag set |ticks| times.
     ran is false if the response array cannot be allocated; batches are the arrays
     handed to the callback, in order.
     */
    method CollectData(request: Request, start: nat, ticks: seq<Tick>) returns (ran: bool, batches: seq<seq<Response>>)
      requires Valid() && lib.initialized && 0 < request.sampling
      modifies lib.temp`tab, lib.temp`history, lib.cool`tab, lib.cool`history
      ensures Valid()
      ensures lib.grants.memory ==> ran
      ensures Origins() == if ran then Later(old(Origins()), ticks) else old(Origins())
      ensures ran ==> Stream.AtMost(caps.value.metricsLen, ReportedSamples(old(Origins()), ticks))
      ensures ran && callback ==>
        batches == Stream.Delivered(Stream.Run(Discipline(request), start, ReportedSamples(old(Origins()), ticks), Clock(ticks)).closed)
      ensures !ran || !callback ==> batches == []
    {
      ran, batches := lib.grants.memory, [];
      if !ran {
        ran := *;
        if !ran {
          return;
        }
      }
      var discipline := Discipline(request);
      var supported := new bool[METRIC_COUNT](_ => false);
      RebuildSupported(supported);
      var buf := new Response[discipline.capacity](_ => BLANK);
      batches := Loop(discipline, start, ticks, buf, supported);
    }

    /**
     linux_thermal_start, and the session of the thread it creates, up to the stop;
     running is the flag that start finds. Whatever was refused before and whatever
     reads fail: every sample reports the last good readings of its open sensors, and
     all readings of all samples are delivered, or still pending when the session ends.
     In a steady system every domain reports from its first 32 sensors.
     */
    method Session(request: Request, running: bool, created: bool, start: nat, ticks: seq<Tick>)
        returns (code: ReturnCode, ran: bool, batches: seq<seq<Response>>)
      requires Valid()
      modifies lib.temp`tab, lib.temp`history, lib.cool`tab, lib.cool`history
      ensures Valid()
      ensures code == Success <==>
        lib.initialized && request.capability == CAPABILITY_ID && request.sampling in SAMPLING_RATES
        && request.streaming in STREAMING_RATES && callback && !running && created
      ensures code == CapabilityNotFound <==> !lib.initialized || request.capability != CAPABILITY_ID
      ensures code == AlreadyInitialized <==>
        lib.initialized && request.capability == CAPABILITY_ID && request.sampling in SAMPLING_RATES
        && request.streaming in STREAMING_RATES && callback && running
      ensures code != Success ==> !ran && batches == []
      ensures Origins() == if ran then Later(old(Origins()), ticks) else old(Origins())
      ensures code == Success && lib.grants.memory ==> ran
      ensures ran ==>
        var samples := ReportedSamples(old(Origins()), ticks);
        var s := Stream.Run(Discipline(request), start, samples, Clock(ticks));
        batches == Stream.Delivered(s.closed) && Flatten(batches) + Stream.Pending(s) == Flatten(samples)
        && HandOver.OnTime(TermsOf(request, start), Clock(ticks), s)
      ensures ran && lib.grants.memory ==>
        forall k :: 0 <= k < |ticks| ==> Ids(ReportedSamples(old(Origins()), ticks)[k]) == AdvertisedIds()
      ensures ran && old(Steady()) ==> old(Origins()) == old(IdealOrigins())
    {
      ran, batches := false, [];
      code := ValidateRequest(request);
      if code != Success {
        return;
      }
      if !callback {
        code := Failed;
        return;
      }
      if running {
        code := AlreadyInitialized;
        return;
      }
      if !created {
        code := Failed;
        return;
      }
      ghost var o := Origins();
      if Steady() {
        SteadyIsIdeal();
      }
      if lib.grants.memory {
        SamplesCarryTheAdvertisedIds(ticks);
      }
      ran, batches := CollectData(request, start, ticks);
      if ran {
        NothingIsLost(request, caps.value.metricsLen, start, ReportedSamples(o, ticks), Clock(ticks), Discipline(request));
      }
    }

    method Loop(discipline: Stream.Config, start: nat, ticks: seq<Tick>, buf: array<Response>, supported: array<bool>)
        returns (batches: seq<seq<Response>>)
      requires Valid() && lib.initialized && buf.Length == discipline.capacity && discipline.rule == Stream.CloseWhenDue
      requires supported.Length == METRIC_COUNT && supported[..] == Presence(lib.temp.tab, lib.cool.tab)
      modifies buf, lib.temp`tab, lib.temp`history, lib.cool`tab, lib.cool`history
      ensures Valid() && Origins() == Later(old(Origins()), ticks)
      ensures Stream.AtMost(caps.value.metricsLen, ReportedSamples(old(Origins()), ticks))
      ensures batches ==
        if callback then Stream.Delivered(Stream.Run(discipline, start, ReportedSamples(old(Origins()), ticks), Clock(ticks)).closed)
        else []
    {
      var at := Stream.Cursor(0, 0, start);
      ghost var o, m := Origins(), caps.value.metricsLen;
      ghost var state := RunOf(discipline, start, o, []);
      assert ticks[..0] == [];
      ReachedStart(discipline, m, start, o);
      batches := [];
      for k := 0 to |ticks|
        invariant Valid() && supported[..] == Presence(lib.temp.tab, lib.cool.tab)
        invariant Reached(discipline, m, start, o, Origins(), ticks[..k], state)
        invariant Stream.Tracks(discipline, at, buf[..], batches, callback, state)
      {
        ghost var before := Origins();
        at, batches := Iterate(ticks[k], discipline, buf, at, supported, batches, state);
        ReachedNext(discipline, m, start, o, before, Origins(), ticks, k, state);
        state := Stream.Step(discipline, state, SampleAt(Origins(), ticks[k].now), ticks[k].now);
      }
      assert ticks[..|ticks|] == ticks;
    }

    /** The body of the loop: sample, then deliver if the window is due. */
    method Iterate(tick: Tick, discipline: Stream.Config, buf: array<Response>, at: Stream.Cursor, supported: array<bool>,
                   batches: seq<seq<Response>>, ghost state: Stream.State<Response>)
        returns (next: Stream.Cursor, sent: seq<seq<Response>>)
      requires Valid() && lib.initialized && buf.Length == discipline.capacity && discipline.rule == Stream.CloseWhenDue
      requires supported.Length == METRIC_COUNT && supported[..] == Presence(lib.temp.tab, lib.cool.tab)
      requires Stream.Tracks(discipline, at, buf[..], batches, callback, state)
      modifies buf, lib.temp`tab, lib.temp`history, lib.cool`tab, lib.cool`history
      ensures Valid() && supported[..] == Presence(lib.temp.tab, lib.cool.tab)
      ensures Origins() == Later(old(Origins()), [tick]) && |SampleAt(Origins(), tick.now)| <= caps.value.metricsLen
      ensures Stream.Tracks(discipline, next, buf[..], sent, callback,
                            Stream.Step(discipline, state, SampleAt(Origins(), tick.now), tick.now))
    {
      assert buf[..][..at.position] == buf[..at.position];
      var end := Sample(tick, discipline, buf, at.position, supported);
      next, sent := Stream.FlushWhenDue(discipline, buf, at, end, tick.now, callback, batches, state, SampleAt(Origins(), tick.now));
    }
  }

  /** Every sample of a run carries the same ids, which only depend on where it starts. */
  lemma SamplesShareTheirIds(o: Origin, ticks: seq<Tick>)
    requires |o.zones| == FIRST_COOLING_ID
    ensures forall k :: 0 <= k < |ticks| ==> Ids(ReportedSamples(o, ticks)[k]) == Packed(Flags(o.zones, o.devices))
  {
    forall k | 0 <= k < |ticks|
      ensures Ids(ReportedSamples(o, ticks)[k]) == Packed(Flags(o.zones, o.devices))
    {
      var p := Later(o, ticks[..k + 1]);
      SampleIds(p.zones, p.zoneHistory, p.devices, p.deviceHistory, p.limits, ticks[k].now);
    }
  }

  /** The state of the streaming discipline after the ticks. */
  ghost function RunOf(c: Stream.Config, start: nat, o: Origin, ticks: seq<Tick>): Stream.State<Response> {
    Stream.Run(c, start, ReportedSamples(o, ticks), Clock(ticks))
  }

  /** The run from o has come through the ticks: it is now at p, and the windows are in state. */
  ghost predicate Reached(c: Stream.Config, m: nat, start: nat, o: Origin, p: Origin, ticks: seq<Tick>, state: Stream.State<Response>) {
    && p == Later(o, ticks) && Stream.AtMost(m, ReportedSamples(o, ticks))
    && state == RunOf(c, start, o, ticks)
  }

  lemma {:induction false} ReachedStart(c: Stream.Config, m: nat, start: nat, o: Origin)
    ensures Reached(c, m, start, o, o, [], RunOf(c, start, o, []))
    ensures RunOf(c, start, o, []) == Stream.Run(c, start, [], [])
  {
    assert ZoneReads([]) == [] && DeviceReads([]) == [] && Clock([]) == [] && ReportedSamples(o, []) == [];
  }

  lemma ReachedNext(c: Stream.Config, m: nat, start: nat, o: Origin, p: Origin, q: Origin, ticks: seq<Tick>, k: nat,
                    state: Stream.State<Response>)
    requires k < |ticks| && Reached(c, m, start, o, p, ticks[..k], state)
    requires q == Later(p, [ticks[k]]) && |SampleAt(q, ticks[k].now)| <= m
    ensures Reached(c, m, start, o, q, ticks[..k + 1], Stream.Step(c, state, SampleAt(q, ticks[k].now), ticks[k].now))
  {
    OneMoreSample(c, start, o, ticks, k);
  }

  /** Tick k extends the histories by its readings, and the run by its sample. */
  lemma OneMoreSample(c: Stream.Config, start: nat, o: Origin, ticks: seq<Tick>, k: nat)
    requires k < |ticks|
    ensures Later(o, ticks[..k + 1]) == Later(Later(o, ticks[..k]), [ticks[k]])
    ensures var sample := SampleAt(Later(o, ticks[..k + 1]), ticks[k].now);
            && ReportedSamples(o, ticks[..k + 1]) == ReportedSamples(o, ticks[..k]) + [sample]
            && RunOf(c, start, o, ticks[..k + 1]) == Stream.Step(c, RunOf(c, start, o, ticks[..k]), sample, ticks[k].now)
  {
    OneMoreTick(ticks, k);
    SamplesSnoc(o, ticks, k);
    assert o.zoneHistory + (ZoneReads(ticks[..k]) + [ticks[k].zones]) == o.zoneHistory + ZoneReads(ticks[..k]) + [ticks[k].zones];
    assert o.deviceHistory + (DeviceReads(ticks[..k]) + [ticks[k].devices]) == o.deviceHistory + DeviceReads(ticks[..k]) + [ticks[k].devices];
    assert ZoneReads([ticks[k]]) == [ticks[k].zones] && DeviceReads([ticks[k]]) == [ticks[k].devices];
    Stream.RunSnoc(c, start, ReportedSamples(o, ticks[..k]), Clock(ticks[..k]), SampleAt(Later(o, ticks[..k + 1]), ticks[k].now), ticks[k].now);
  }

  lemma SamplesSnoc(o: Origin, ticks: seq<Tick>, k: nat)
    requires k < |ticks|
    ensures ReportedSamples(o, ticks[..k + 1])
         == ReportedSamples(o, ticks[..k]) + [SampleAt(Later(o, ticks[..k + 1]), ticks[k].now)]
  {
    var a, b := ReportedSamples(o, ticks[..k + 1]), ReportedSamples(o, ticks[..k]);
    forall i | 0 <= i < k ensures a[i] == b[i] {
      assert ticks[..k + 1][..i + 1] == ticks[..k][..i + 1];
    }
    assert ticks[..k + 1][..k + 1] == ticks[..k + 1];
  }

  /** In every run, with states that fit their limits, every cooling response is a percentage. */
  lemma EveryThrottleIsAPercentage(o: Origin, ticks: seq<Tick>, k: nat, r: Response)
    requires |o.zones| == FIRST_COOLING_ID && SaneStates(o.deviceHistory + DeviceReads(ticks), o.limits)
    requires k < |ticks| && r in ReportedSamples(o, ticks)[k] && r.id >= FIRST_COOLING_ID
    ensures r.value.Double? && 0.0 <= r.value.x <= 100.0
  {
    var p := Later(o, ticks[..k + 1]);
    assert SaneStates(p.deviceHistory, o.limits) by {
      var all := o.deviceHistory + DeviceReads(ticks);
      assert p.deviceHistory == all[..|o.deviceHistory| + k + 1];
      assert forall i :: 0 <= i < |p.deviceHistory| ==> p.deviceHistory[i] == all[i];
    }
    CoolingIsAPercentage(p.zones, p.zoneHistory, p.devices, p.deviceHistory, o.limits, ticks[k].now, r);
  }

  lemma PassesOfLater(o: Origin, ticks: seq<Tick>, k: nat)
    requires k < |ticks|
    ensures Later(o, ticks[..k + 1]).zoneHistory == o.zoneHistory + seq(k + 1, i requires 0 <= i <= k => ticks[i].zones)
    ensures Later(o, ticks[..k + 1]).deviceHistory == o.deviceHistory + seq(k + 1, i requires 0 <= i <= k => ticks[i].devices)
  {
    assert ZoneReads(ticks[..k + 1]) == seq(k + 1, i requires 0 <= i <= k => ticks[i].zones);
    assert DeviceReads(ticks[..k + 1]) == seq(k + 1, i requires 0 <= i <= k => ticks[i].devices);
  }

  /**
   What a temperature response of a run says: in thousandths, it is at least the last
   good reading of every reported sensor of its domain, and is that of one of them,
   or 0. The readings are those of the passes up to its own iteration.
   */
  lemma EveryTemperatureIsTheHottest(o: Origin, ticks: seq<Tick>, k: nat, r: Response)
    requires |o.zones| == FIRST_COOLING_ID && k < |ticks| && r in ReportedSamples(o, ticks)[k] && r.id < FIRST_COOLING_ID
    ensures o.zones[r.id].Some? && r.timestamp == ticks[k].now && r.value.Double?
    ensures var passes := o.zoneHistory + seq(k + 1, i requires 0 <= i <= k => ticks[i].zones);
            && (forall n, i :: n in o.zones[r.id].value && LastGood(passes, n, i) ==> passes[i][n] as real <= r.value.x * 1000.0)
            && (r.value.x == 0.0
                || exists n, i :: n in o.zones[r.id].value && LastGood(passes, n, i) && passes[i][n] as real == r.value.x * 1000.0)
  {
    PassesOfLater(o, ticks, k);
    var p := Later(o, ticks[..k + 1]);
    var passes := p.zoneHistory;
    SampleMeans(p.zones, p.zoneHistory, p.devices, p.deviceHistory, p.limits, ticks[k].now, r);
    var numbers := o.zones[r.id].value;
    PeakIsTheMaximum(Temperature, passes, numbers);
    forall n, i | n in numbers && LastGood(passes, n, i)
      ensures passes[i][n] as real <= r.value.x * 1000.0
    {
      LatestIsTheLastGood(passes, n, i);
    }
    if r.value.x != 0.0 {
      var n :| n in numbers && Latest(Temperature, passes, n) == PeakLatest(Temperature, passes, numbers);
      var i := SourceOfLatest(Temperature, passes, n);
      LatestIsTheLastGood(passes, n, i);
    }
  }

  /** The throttle of a device in percent, from its raw states: both are kept in a byte. */
  function RawPercent(state: nat, limit: nat): real
    requires limit % 256 > 0
  {
    (state % 256) as real / (limit % 256) as real * 100.0
  }

  /** And what a cooling response says, with devices whose limit was read as positive. */
  lemma EveryThrottleIsTheHighest(o: Origin, ticks: seq<Tick>, k: nat, r: Response)
    requires |o.zones| == FIRST_COOLING_ID && k < |ticks| && r in ReportedSamples(o, ticks)[k] && r.id >= FIRST_COOLING_ID
    ensures r.id - FIRST_COOLING_ID < |o.devices| && o.devices[r.id - FIRST_COOLING_ID].Some?
    ensures r.timestamp == ticks[k].now && r.value.Double?
    ensures var passes := o.deviceHistory + seq(k + 1, i requires 0 <= i <= k => ticks[i].devices);
            var numbers := o.devices[r.id - FIRST_COOLING_ID].value;
            && (forall n, i :: n in numbers && n in o.limits && o.limits[n] % 256 > 0 && LastGood(passes, n, i) ==>
                  RawPercent(passes[i][n], o.limits[n]) <= r.value.x)
            && (r.value.x == 0.0
                || exists n, i :: n in numbers && n in o.limits && o.limits[n] % 256 > 0 && LastGood(passes, n, i)
                     && RawPercent(passes[i][n], o.limits[n]) == r.value.x)
  {
    PassesOfLater(o, ticks, k);
    var p := Later(o, ticks[..k + 1]);
    var passes := p.deviceHistory;
    SampleMeans(p.zones, p.zoneHistory, p.devices, p.deviceHistory, p.limits, ticks[k].now, r);
    HighestOfPasses(passes, o.limits, o.devices[r.id - FIRST_COOLING_ID].value, r.value.x);
  }

  lemma {:induction false} HighestOfPasses(passes: seq<Snapshot>, limits: Snapshot, numbers: seq<nat>, x: real)
    requires x == ThrottleLatest(passes, limits, numbers)
    ensures forall n, i :: n in numbers && n in limits && limits[n] % 256 > 0 && LastGood(passes, n, i) ==>
              RawPercent(passes[i][n], limits[n]) <= x
    ensures x == 0.0
         || exists n, i :: n in numbers && n in limits && limits[n] % 256 > 0 && LastGood(passes, n, i)
              && RawPercent(passes[i][n], limits[n]) == x
  {
    ThrottleIsTheMaximum(passes, limits, numbers);
    forall n, i | n in numbers && n in limits && limits[n] % 256 > 0 && LastGood(passes, n, i)
      ensures RawPercent(passes[i][n], limits[n]) <= x
    {
      LatestIsTheLastGood(passes, n, i);
    }
    if x != 0.0 {
      var n :| n in numbers && Reading(Cooling, limits, n) > 0
               && Latest(Cooling, passes, n) as real / Reading(Cooling, limits, n) as real * 100.0 == x;
      var i := SourceOfLatest(Cooling, passes, n);
      if i == -1 {
        assert false;
      }
      LatestIsTheLastGood(passes, n, i);
    }
  }

  /**
   Lossless batching for every accepted request: what was delivered and what is
   pending are all the samples' readings, in order; each delivered batch is made of
   1 to samples-per-stream whole samples; no sample is cut for lack of room; and every
   window is handed over with the first sample that covers the streaming interval.
   */
  lemma {:induction false} NothingIsLost(request: Request, m: nat, start: nat, samples: seq<seq<Response>>, clock: seq<nat>, c: Stream.Config)
    requires request.streaming in STREAMING_RATES && request.sampling in SAMPLING_RATES
    requires c == Stream.Discipline(Stream.CloseWhenDue, request.streaming, request.sampling, m)
    requires |samples| == |clock| && Stream.AtMost(m, samples)
    ensures var s := Stream.Run(c, start, samples, clock);
            && Flatten(Stream.Delivered(s.closed)) + Stream.Pending(s) == Flatten(samples)
            && Flatten(s.closed) + s.window == samples
            && (forall i :: 0 <= i < |s.closed| ==> 1 <= |s.closed[i]| <= c.samples)
            && HandOver.OnTime(TermsOf(request, start), clock, s)
  {
    HandOver.RunIsInTime(TermsOf(request, start), m, samples, clock);
    Stream.ArraysAreSpacious(c, request.streaming, request.sampling, m);
    Stream.Lossless(c, m, start, samples, clock);
    Stream.WindowsPartitionTheRun(c, m, start, samples, clock);
    Stream.WindowSizes(c, start, samples, clock);
  }

  lemma OneMoreTick(ticks: seq<Tick>, k: nat)
    requires k < |ticks|
    ensures ticks[..k + 1][..k] == ticks[..k] && ticks[..k + 1] == ticks[..k] + [ticks[k]]
    ensures Clock(ticks[..k + 1]) == Clock(ticks[..k]) + [ticks[k].now]
    ensures ZoneReads(ticks[..k + 1]) == ZoneReads(ticks[..k]) + [ticks[k].zones]
    ensures DeviceReads(ticks[..k + 1]) == DeviceReads(ticks[..k]) + [ticks[k].devices]
  {
  }

  lemma TwoTakes(before: seq<Response>, a: seq<Response>, b: seq<Response>, c: Stream.Config)
    requires |before| <= c.capacity
    ensures Take(Take(before + a, c.capacity) + b, c.capacity) == before + Stream.Kept(c, before, a + b)
  {
  }

  lemma {:induction false} ZoneReportGrows(t: Tables, supported: seq<bool>, now: nat, m: nat, n: nat)
    requires m <= n
    ensures ZoneReport(t, supported, now, m) <= ZoneReport(t, supported, now, n)
  {
    if m < n {
      ZoneReportGrows(t, supported, now, m, n - 1);
    }
  }

  lemma {:induction false} DeviceReportGrows(t: Tables, supported: seq<bool>, now: nat, m: nat, n: nat)
    requires m <= n && WellFormed(Cooling, t)
    ensures DeviceReport(t, supported, now, m) <= DeviceReport(t, supported, now, n)
  {
    if m < n {
      DeviceReportGrows(t, supported, now, m, n - 1);
    }
  }
}
