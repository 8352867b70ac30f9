/**
 The CPU backend: the metrics it advertises, the readings of one sample, and the
 loop of its sampling thread, which takes two /proc/stat snapshots per sample.
 */
module CpuCollector {
  import opened Common
  import opened CpuLoad
  import opened Responses
  import HandOver
  import Stream

  const MAX_CORES: nat := 18
  const PER_CORE: nat := 5       // QCOM_LINUX_CPU_METRICS_PER_CORE
  const TOTALS: nat := 2         // QCOM_LINUX_CPU_TOTAL_METRICS
  const STREAMING_RATES: seq<nat> := [200, 500, 1000]
  const SAMPLING_RATES: seq<nat> := [50, 100, 200]

  /** QCOM_LINUX_CPU_CORE_BASE_ID */
  function BaseId(core: nat): nat {
    2 + core * PER_CORE
  }

  // ----- Advertised metrics

  /** The ids of a core: load, frequency, steal, effective load and, where its node is readable, the DCVS limit. */
  function CoreIds(core: nat, dcvs: bool): seq<nat> {
    [BaseId(core), BaseId(core) + 1, BaseId(core) + 2, BaseId(core) + 3] + if dcvs then [BaseId(core) + 4] else []
  }

  /** dcvs tells, core by core, whether the DCVS node is readable. */
  function AdvertisedIds(dcvs: seq<bool>): seq<nat> {
    if dcvs == [] then [0, 1]
    else
      var n := |dcvs| - 1;
      AdvertisedIds(dcvs[..n]) + CoreIds(n, dcvs[n])
  }

  /** The layout of the ids: increasing, so distinct, and below the room that was allocated for them. */
  lemma {:induction false} IdsAreIncreasing(dcvs: seq<bool>)
    ensures var ids := AdvertisedIds(dcvs);
            && (forall i, j :: 0 <= i < j < |ids| ==> ids[i] < ids[j])
            && (forall i :: 0 <= i < |ids| ==> ids[i] < BaseId(|dcvs|))
            && |ids| <= TOTALS + |dcvs| * PER_CORE
  {
    if dcvs != [] {
      IdsAreIncreasing(dcvs[..|dcvs| - 1]);
    }
  }

  /** An id tells its core and its offset. */
  lemma IdsAreUnambiguous(c1: nat, o1: nat, c2: nat, o2: nat)
    requires o1 < PER_CORE && o2 < PER_CORE && BaseId(c1) + o1 == BaseId(c2) + o2
    ensures c1 == c2 && o1 == o2
    ensures BaseId(c1) + o1 > 1
  {
  }

  /** Which ids are advertised: the two totals, four per core, and a core's fifth if its DCVS node is readable. */
  lemma {:induction false} AdvertisedMeans(dcvs: seq<bool>, id: nat)
    ensures id in AdvertisedIds(dcvs) <==>
            id < 2 || ((id - 2) / 5 < |dcvs| && ((id - 2) % 5 < 4 || dcvs[(id - 2) / 5]))
  {
    if dcvs != [] {
      AdvertisedMeans(dcvs[..|dcvs| - 1], id);
      CoreIdsMean(|dcvs| - 1, dcvs[|dcvs| - 1], id);
    }
  }

  lemma CoreIdsMean(core: nat, dcvs: bool, id: nat)
    ensures id in CoreIds(core, dcvs) <==> id >= 2 && (id - 2) / 5 == core && ((id - 2) % 5 < 4 || dcvs)
  {
  }

  /** qcom_linux_cpu_init_metrics, for a core count that was read: fills the first count entries of ids. */
  method InitMetrics(dcvs: seq<bool>, ids: array<nat>) returns (count: nat)
    requires |dcvs| <= MAX_CORES && ids.Length == TOTALS + |dcvs| * PER_CORE
    modifies ids
    ensures count <= ids.Length && ids[..count] == AdvertisedIds(dcvs)
  {
    ids[0], ids[1] := 0, 1;
    count := 2;
    for core := 0 to |dcvs|
      invariant 2 <= count <= TOTALS + core * PER_CORE
      invariant ids[..count] == AdvertisedIds(dcvs[..core])
    {
      assert dcvs[..core + 1][..core] == dcvs[..core];
      count := WriteCoreIds(core, dcvs[core], ids, count);
    }
    assert dcvs[..|dcvs|] == dcvs;
  }

  method WriteCoreIds(core: nat, dcvs: bool, ids: array<nat>, start: nat) returns (count: nat)
    requires start + PER_CORE <= ids.Length
    modifies ids
    ensures count <= start + PER_CORE && ids[..count] == old(ids[..start]) + CoreIds(core, dcvs)
  {
    count := start;
    for o := 0 to 4
      invariant count == start + o
      invariant ids[..count] == old(ids[..start]) + CoreIds(core, dcvs)[..o]
    {
      ids[count] := BaseId(core) + o;
      count := count + 1;
      assert ids[..count] == ids[..count - 1] + [BaseId(core) + o];
    }
    if dcvs {
      ids[count] := BaseId(core) + 4;
      count := count + 1;
      assert ids[..count] == ids[..count - 1] + [BaseId(core) + 4];
    }
  }

  // ----- Capacities

  /**
   qcom_linux_cpu_util_get_total_capacity; cores is None if the core count cannot be
   read, otherwise it has the cores' capacities, None where the read fails.
   */
  method TotalCapacity(cores: Option<seq<Option<nat>>>) returns (code: ReturnCode, total: nat)
    ensures code == Success <==>
      cores.Some? && (forall c :: 0 <= c < |cores.value| ==> cores.value[c].Some?) && Sum(Known(cores.value)) != 0
    ensures code == Success ==> total == Sum(Known(cores.value))
    ensures code in {Success, Failed} && (cores.None? ==> total == 0)
  {
    code, total := Success, 0;
    if cores.None? {
      return Failed, 0;
    }
    var caps := cores.value;
    for core := 0 to |caps|
      invariant code == Success && forall c :: 0 <= c < core ==> caps[c].Some?
      invariant total == Sum(Known(caps)[..core])
    {
      assert Known(caps)[..core + 1][..core] == Known(caps)[..core];
      if caps[core].None? {
        return Failed, total;
      }
      total := total + caps[core].value;
    }
    assert Known(caps)[..|caps|] == Known(caps);
    if total == 0 {
      code := Failed;
    }
  }

  /** cpu_capacity[]: the entries whose read fails keep the 0 they start with. */
  function Known(caps: seq<Option<nat>>): (r: seq<nat>)
    ensures |r| == |caps|
  {
    seq(|caps|, c requires 0 <= c < |caps| => if caps[c].Some? then caps[c].value else 0)
  }

  /** Capacities are constants of the cores: where the later read succeeds, it agrees with the first. */
  ghost predicate Consistent(first: seq<Option<nat>>, later: seq<Option<nat>>) {
    |first| == |later| && forall c :: 0 <= c < |first| ==> first[c].Some? && (later[c].Some? ==> later[c] == first[c])
  }

  lemma {:induction false} LaterCapacitiesFit(first: seq<Option<nat>>, later: seq<Option<nat>>)
    requires Consistent(first, later)
    ensures Sum(Known(later)) <= Sum(Known(first))
    ensures (forall c :: 0 <= c < |later| ==> later[c].Some?) ==> Sum(Known(later)) == Sum(Known(first))
  {
    if first != [] {
      var n := |first| - 1;
      LaterCapacitiesFit(first[..n], later[..n]);
      assert Known(first)[..n] == Known(first[..n]) && Known(later)[..n] == Known(later[..n]);
    }
  }

  // ----- One sample

  /**
   One loop iteration: the two snapshots, whether the thread is told to stop during
   the sleep between them, the cores' frequencies and DCVS limits, and the time.
   */
  datatype Tick = Tick(first: Option<seq<Line>>, stopped: bool, second: Option<seq<Line>>,
                       frequency: seq<real>, dcvs: seq<Option<nat>>, now: nat)

  /** The fixed data of a run: the capacities as first and as later read. */
  datatype Setup = Setup(total: nat, caps: seq<nat>)

  function Utilizations(usage: seq<Usage>): (r: seq<real>)
    ensures |r| == |usage|
  {
    seq(|usage|, c requires 0 <= c < |usage| => usage[c].utilization)
  }

  function Effectives(usage: seq<Usage>): (r: seq<real>)
    ensures |r| == |usage|
  {
    seq(|usage|, c requires 0 <= c < |usage| => usage[c].effective)
  }

  function CoreReadings(core: nat, u: Usage, frequency: real, dcvs: Option<nat>, now: nat): seq<Response> {
    [Response(BaseId(core), now, Double(u.utilization)), Response(BaseId(core) + 1, now, Double(frequency)),
     Response(BaseId(core) + 2, now, Double(u.steal)), Response(BaseId(core) + 3, now, Double(u.effective))]
    + if dcvs.Some? then [Response(BaseId(core) + 4, now, Uint64(dcvs.value))] else []
  }

  function TotalReadings(setup: Setup, usage: seq<Usage>, now: nat): seq<Response>
    requires |usage| == |setup.caps|
  {
    [Response(0, now, Double(Weighted(Utilizations(usage), setup.caps, setup.total))),
     Response(1, now, Double(Weighted(Effectives(usage), setup.caps, setup.total)))]
  }

  /** The readings of cores 0..n. */
  function CoresReadings(usage: seq<Usage>, tick: Tick, n: nat): seq<Response>
    requires n <= |usage| == |tick.frequency| == |tick.dcvs|
  {
    if n == 0 then []
    else CoresReadings(usage, tick, n - 1) + CoreReadings(n - 1, usage[n - 1], tick.frequency[n - 1], tick.dcvs[n - 1], tick.now)
  }

  function Readings(setup: Setup, usage: seq<Usage>, tick: Tick): seq<Response>
    requires |usage| == |setup.caps| == |tick.frequency| == |tick.dcvs|
  {
    TotalReadings(setup, usage, tick.now) + CoresReadings(usage, tick, |usage|)
  }

  function Readable(dcvs: seq<Option<nat>>): (r: seq<bool>)
    ensures |r| == |dcvs|
  {
    seq(|dcvs|, c requires 0 <= c < |dcvs| => dcvs[c].Some?)
  }

  lemma {:induction false} CoresIds(setup: Setup, usage: seq<Usage>, tick: Tick, n: nat)
    requires n <= |usage| == |setup.caps| == |tick.frequency| == |tick.dcvs|
    ensures Ids(TotalReadings(setup, usage, tick.now) + CoresReadings(usage, tick, n)) == AdvertisedIds(Readable(tick.dcvs)[..n])
  {
    var flags := Readable(tick.dcvs);
    if n > 0 {
      CoresIds(setup, usage, tick, n - 1);
      assert flags[..n][..n - 1] == flags[..n - 1];
      var totals, cores := TotalReadings(setup, usage, tick.now), CoresReadings(usage, tick, n - 1);
      var more := CoreReadings(n - 1, usage[n - 1], tick.frequency[n - 1], tick.dcvs[n - 1], tick.now);
      assert totals + (cores + more) == totals + cores + more;
      IdsConcat(totals + cores, more);
      CoreReadingIds(n - 1, usage[n - 1], tick.frequency[n - 1], tick.dcvs[n - 1], tick.now);
    }
  }

  lemma CoreReadingIds(core: nat, u: Usage, frequency: real, dcvs: Option<nat>, now: nat)
    ensures Ids(CoreReadings(core, u, frequency, dcvs, now)) == CoreIds(core, dcvs.Some?)
  {
  }

  /** r is a reading of core c: load, frequency, stolen time, effective load, or the DCVS limit where it was read. */
  predicate IsReadingOf(usage: seq<Usage>, tick: Tick, c: nat, r: Response)
    requires |usage| == |tick.frequency| == |tick.dcvs|
  {
    c < |usage| && r.timestamp == tick.now
    && ((r.id == 5 * c + 2 && r.value == Double(usage[c].utilization))
        || (r.id == 5 * c + 3 && r.value == Double(tick.frequency[c]))
        || (r.id == 5 * c + 4 && r.value == Double(usage[c].steal))
        || (r.id == 5 * c + 5 && r.value == Double(usage[c].effective))
        || (r.id == 5 * c + 6 && tick.dcvs[c].Some? && r.value == Uint64(tick.dcvs[c].value)))
  }

  lemma {:induction false} CoresMean(usage: seq<Usage>, tick: Tick, n: nat, r: Response)
    requires n <= |usage| == |tick.frequency| == |tick.dcvs|
    ensures r in CoresReadings(usage, tick, n) <==> exists c: nat :: c < n && IsReadingOf(usage, tick, c, r)
  {
    if n > 0 {
      CoresMean(usage, tick, n - 1, r);
      assert r in CoreReadings(n - 1, usage[n - 1], tick.frequency[n - 1], tick.dcvs[n - 1], tick.now)
        <==> IsReadingOf(usage, tick, n - 1, r);
    }
  }

  /** The readings of a sample, one by one: which value goes out under which id. */
  lemma ReadingsMean(setup: Setup, usage: seq<Usage>, tick: Tick, r: Response)
    requires |usage| == |setup.caps| == |tick.frequency| == |tick.dcvs|
    ensures r in Readings(setup, usage, tick) <==>
      || r == Response(0, tick.now, Double(Weighted(Utilizations(usage), setup.caps, setup.total)))
      || r == Response(1, tick.now, Double(Weighted(Effectives(usage), setup.caps, setup.total)))
      || exists c: nat :: IsReadingOf(usage, tick, c, r)
  {
    CoresMean(usage, tick, |usage|, r);
  }

  /** A sample emits the ids that would be advertised for the DCVS nodes it could read, in the same order. */
  lemma SampleEmitsAdvertisedIds(setup: Setup, usage: seq<Usage>, tick: Tick)
    requires |usage| == |setup.caps| == |tick.frequency| == |tick.dcvs|
    ensures Ids(Readings(setup, usage, tick)) == AdvertisedIds(Readable(tick.dcvs))
  {
    CoresIds(setup, usage, tick, |usage|);
    assert Readable(tick.dcvs)[..|usage|] == Readable(tick.dcvs);
  }

  // ----- Emission into the response array

  method Put(buf: array<Response>, position: nat, r: Response) returns (end: nat)
    requires position <= buf.Length
    modifies buf
    ensures end <= buf.Length && buf[..end] == Take(old(buf[..position]) + [r], buf.Length)
  {
    end := position;
    if position < buf.Length {
      end := Stream.Put(buf, position, r);
    }
  }

  method PutCore(buf: array<Response>, position: nat, core: nat, u: Usage, frequency: real, dcvs: Option<nat>, now: nat)
      returns (end: nat)
    requires position <= buf.Length
    modifies buf
    ensures end <= buf.Length
    ensures buf[..end] == Take(old(buf[..position]) + CoreReadings(core, u, frequency, dcvs, now), buf.Length)
  {
    ghost var b0, n := buf[..position], buf.Length;
    var r := [Response(BaseId(core), now, Double(u.utilization)), Response(BaseId(core) + 1, now, Double(frequency)),
              Response(BaseId(core) + 2, now, Double(u.steal)), Response(BaseId(core) + 3, now, Double(u.effective))];
    end := position;
    for o := 0 to 4
      invariant end <= n && buf[..end] == Take(b0 + r[..o], n)
    {
      end := Put(buf, end, r[o]);
      TakeTwice(b0 + r[..o], [r[o]], n);
      assert b0 + r[..o] + [r[o]] == b0 + r[..o + 1];
    }
    if dcvs.Some? {
      end := Put(buf, end, Response(BaseId(core) + 4, now, Uint64(dcvs.value)));
      TakeTwice(b0 + r, [Response(BaseId(core) + 4, now, Uint64(dcvs.value))], n);
      assert b0 + r + [Response(BaseId(core) + 4, now, Uint64(dcvs.value))] == b0 + CoreReadings(core, u, frequency, dcvs, now);
    }
  }

  method PutTotals(buf: array<Response>, position: nat, total: real, effective: real, now: nat) returns (end: nat)
    requires position <= buf.Length
    modifies buf
    ensures end <= buf.Length
    ensures buf[..end] == Take(old(buf[..position]) + [Response(0, now, Double(total)), Response(1, now, Double(effective))], buf.Length)
  {
    ghost var b0 := buf[..position];
    var r0, r1 := Response(0, now, Double(total)), Response(1, now, Double(effective));
    end := Put(buf, position, r0);
    end := Put(buf, end, r1);
    TakeTwice(b0 + [r0], [r1], buf.Length);
    assert b0 + [r0] + [r1] == b0 + [r0, r1];
  }

  /** The cores' readings; the loop ends early at a full array. */
  method PutCores(buf: array<Response>, position: nat, usage: seq<Usage>, tick: Tick) returns (end: nat)
    requires position <= buf.Length && |usage| == |tick.frequency| == |tick.dcvs|
    modifies buf
    ensures end <= buf.Length
    ensures buf[..end] == Take(old(buf[..position]) + CoresReadings(usage, tick, |usage|), buf.Length)
  {
    ghost var b0 := buf[..position];
    end := position;
    var core := 0;
    while core < |usage| && end < buf.Length
      invariant core <= |usage| && end <= buf.Length
      invariant buf[..end] == Take(b0 + CoresReadings(usage, tick, core), buf.Length)
    {
      end := PutNextCore(buf, end, usage, tick, core, b0);
      core := core + 1;
    }
    CoresGrow(usage, tick, core, |usage|);
    TakeFull(b0, CoresReadings(usage, tick, core), CoresReadings(usage, tick, |usage|), buf.Length);
  }

  method PutNextCore(buf: array<Response>, position: nat, usage: seq<Usage>, tick: Tick, core: nat, ghost before: seq<Response>)
      returns (end: nat)
    requires position <= buf.Length && core < |usage| == |tick.frequency| == |tick.dcvs|
    requires buf[..position] == Take(before + CoresReadings(usage, tick, core), buf.Length)
    modifies buf
    ensures end <= buf.Length && buf[..end] == Take(before + CoresReadings(usage, tick, core + 1), buf.Length)
  {
    OneMoreCoreFits(before, usage, tick, core, buf.Length);
    end := PutCore(buf, position, core, usage[core], tick.frequency[core], tick.dcvs[core], tick.now);
  }

  lemma OneMoreCoreFits(before: seq<Response>, usage: seq<Usage>, tick: Tick, core: nat, n: nat)
    requires core < |usage| == |tick.frequency| == |tick.dcvs|
    ensures Take(before + CoresReadings(usage, tick, core + 1), n)
         == Take(Take(before + CoresReadings(usage, tick, core), n)
                 + CoreReadings(core, usage[core], tick.frequency[core], tick.dcvs[core], tick.now), n)
  {
    var cores, more := CoresReadings(usage, tick, core), CoreReadings(core, usage[core], tick.frequency[core], tick.dcvs[core], tick.now);
    TakeTwice(before + cores, more, n);
    assert CoresReadings(usage, tick, core + 1) == cores + more;
    assert before + cores + more == before + (cores + more);
  }

  /** All readings of a sample, as far as the array has room. */
  method Emit(buf: array<Response>, position: nat, setup: Setup, usage: seq<Usage>, total: real, effective: real, tick: Tick)
      returns (end: nat)
    requires position <= buf.Length && |usage| == |setup.caps| == |tick.frequency| == |tick.dcvs|
    requires total == Weighted(Utilizations(usage), setup.caps, setup.total)
    requires effective == Weighted(Effectives(usage), setup.caps, setup.total)
    modifies buf
    ensures end <= buf.Length
    ensures buf[..end] == Take(old(buf[..position]) + Readings(setup, usage, tick), buf.Length)
  {
    ghost var b0, head, cores := buf[..position], TotalReadings(setup, usage, tick.now), CoresReadings(usage, tick, |usage|);
    end := PutTotals(buf, position, total, effective, tick.now);
    end := PutCores(buf, end, usage, tick);
    TakeTwice(b0 + head, cores, buf.Length);
    assert b0 + head + cores == b0 + (head + cores);
  }

  lemma {:induction false} CoresGrow(usage: seq<Usage>, tick: Tick, m: nat, n: nat)
    requires m <= n <= |usage| == |tick.frequency| == |tick.dcvs|
    ensures CoresReadings(usage, tick, m) <= CoresReadings(usage, tick, n)
  {
    if m < n {
      CoresGrow(usage, tick, m, n - 1);
    }
  }

  // ----- The sampling thread

  datatype Loads = Loads(prev: seq<LoadInfo>, curr: seq<LoadInfo>)

  function Taken(load: seq<LoadInfo>, lines: Option<seq<Line>>): (r: seq<LoadInfo>)
    ensures |r| == |load|
  {
    if lines.Some? then Snapshot(load, lines.value, 0) else load
  }

  /** The two load arrays of n cores after the iterations; they are never copied or swapped. */
  function LoadsAfter(n: nat, ticks: seq<Tick>): (r: Loads)
    ensures |r.prev| == n == |r.curr|
  {
    if ticks == [] then Loads(seq(n, _ => NO_LOAD), seq(n, _ => NO_LOAD))
    else
      var before, t := LoadsAfter(n, ticks[..|ticks| - 1]), ticks[|ticks| - 1];
      Loads(Taken(before.prev, t.first), Taken(before.curr, t.second))
  }

  function Usages(l: Loads): (u: seq<Usage>)
    requires |l.prev| == |l.curr|
    ensures |u| == |l.curr|
  {
    seq(|l.curr|, c requires 0 <= c < |l.curr| => UsageOf(l.prev[c], l.curr[c]))
  }

  ghost predicate Fits(n: nat, ticks: seq<Tick>) {
    forall i :: 0 <= i < |ticks| ==> |ticks[i].frequency| == n == |ticks[i].dcvs|
  }

  function Samples(setup: Setup, ticks: seq<Tick>): (s: seq<seq<Response>>)
    requires Fits(|setup.caps|, ticks)
    ensures |s| == |ticks|
  {
    if ticks == [] then []
    else
      var k := |ticks| - 1;
      Samples(setup, ticks[..k]) + [Readings(setup, Usages(LoadsAfter(|setup.caps|, ticks)), ticks[k])]
  }

  function Times(ticks: seq<Tick>): seq<nat> {
    seq(|ticks|, i requires 0 <= i < |ticks| => ticks[i].now)
  }

  /** How many iterations complete: the stop during a sleep ends the thread before its second snapshot. */
  function Completed(ticks: seq<Tick>): (k: nat)
    ensures k <= |ticks| && (k < |ticks| ==> ticks[k].stopped) && forall j :: 0 <= j < k ==> !ticks[j].stopped
  {
    FirstStop(ticks, 0)
  }

  /** The first tick from k on that is stopped. */
  function FirstStop(ticks: seq<Tick>, k: nat): (i: nat)
    requires k <= |ticks|
    ensures k <= i <= |ticks| && (i < |ticks| ==> ticks[i].stopped) && forall j :: k <= j < i ==> !ticks[j].stopped
    decreases |ticks| - k
  {
    if k == |ticks| || ticks[k].stopped then k else FirstStop(ticks, k + 1)
  }

  function Discipline(streaming: nat, sampling: nat, advertised: nat): Stream.Config
    requires 0 < sampling
  {
    Stream.Discipline(Stream.CloseWhenDue, streaming, sampling, advertised)
  }

  method MeasureCore(prev: LoadInfo, curr: LoadInfo) returns (u: Usage)
    ensures u == UsageOf(prev, curr)
  {
    var deltaTotal := curr.total - prev.total;
    var deltaIdle := curr.idle - prev.idle;
    var deltaSteal := curr.steal - prev.steal;
    u := Usage(0.0, 0.0, 0.0);
    if deltaTotal > 0.0 {
      u := Usage(Abs((deltaTotal - deltaIdle) / deltaTotal * 100.0), Abs(deltaSteal / deltaTotal * 100.0),
                 Abs((deltaTotal - deltaIdle - deltaSteal) / deltaTotal * 100.0));
    }
  }

  /** The usage of every core, and the two capacity-weighted totals. */
  method Measure(prev: array<LoadInfo>, curr: array<LoadInfo>, setup: Setup)
      returns (usage: seq<Usage>, total: real, effective: real)
    requires prev.Length == curr.Length == |setup.caps|
    ensures usage == Usages(Loads(prev[..], curr[..]))
    ensures total == Weighted(Utilizations(usage), setup.caps, setup.total)
    ensures effective == Weighted(Effectives(usage), setup.caps, setup.total)
  {
    usage, total, effective := [], 0.0, 0.0;
    ghost var all := Usages(Loads(prev[..], curr[..]));
    for core := 0 to curr.Length
      invariant usage == all[..core]
      invariant total == Weighted(Utilizations(usage), setup.caps[..core], setup.total)
      invariant effective == Weighted(Effectives(usage), setup.caps[..core], setup.total)
    {
      var u := MeasureCore(prev[core], curr[core]);
      assert setup.caps[..core + 1] == setup.caps[..core] + [setup.caps[core]];
      assert Utilizations(usage + [u]) == Utilizations(usage) + [u.utilization];
      assert Effectives(usage + [u]) == Effectives(usage) + [u.effective];
      total := Accumulate(total, u.utilization, setup.caps[core], setup.total, Utilizations(usage), setup.caps[..core]);
      effective := Accumulate(effective, u.effective, setup.caps[core], setup.total, Effectives(usage), setup.caps[..core]);
      usage := usage + [u];
    }
    assert setup.caps[..curr.Length] == setup.caps && all[..curr.Length] == all;
  }

  /** Adds one core's weighted value to the total of the cores before it. */
  method Accumulate(sum: real, value: real, cap: nat, total: nat, ghost values: seq<real>, ghost caps: seq<nat>)
      returns (next: real)
    requires |values| == |caps| && sum == Weighted(values, caps, total)
    ensures next == Weighted(values + [value], caps + [cap], total)
  {
    next := sum;
    if total != 0 {
      var factor := cap as real / total as real;
      next := sum + value * factor;
    }
    assert (values + [value])[..|values|] == values && (caps + [cap])[..|caps|] == caps;
  }

  /**
   qcom_linux_cpu_collect_data, with the topology read and the request accepted;
   advertised is metric_ids_list_len. granted tells whether all arrays can be allocated.
   */
  method CollectCpuData(granted: bool, setup: Setup, advertised: nat, streaming: nat, sampling: nat, start: nat,
                        ticks: seq<Tick>, callback: bool)
      returns (batches: seq<seq<Response>>)
    requires 0 < sampling && Fits(|setup.caps|, ticks)
    ensures var done := ticks[..Completed(ticks)];
      batches == if granted && callback then
                   Stream.Delivered(Stream.Run(Discipline(streaming, sampling, advertised), start, Samples(setup, done), Times(done)).closed)
                 else []
  {
    batches := [];
    if !granted {
      return;
    }
    var n, c := |setup.caps|, Discipline(streaming, sampling, advertised);
    var prev := new LoadInfo[n](_ => NO_LOAD);
    var curr := new LoadInfo[n](_ => NO_LOAD);
    var buf := new Response[c.capacity](_ => BLANK);
    batches := Loop(c, setup, start, ticks, callback, prev, curr, buf);
  }

  method Loop(c: Stream.Config, setup: Setup, start: nat, ticks: seq<Tick>, callback: bool,
              prev: array<LoadInfo>, curr: array<LoadInfo>, buf: array<Response>) returns (batches: seq<seq<Response>>)
    requires c.rule == Stream.CloseWhenDue && c.capacity == buf.Length && Fits(|setup.caps|, ticks)
    requires prev != curr && Loads(prev[..], curr[..]) == LoadsAfter(|setup.caps|, [])
    modifies prev, curr, buf
    ensures var done := ticks[..Completed(ticks)];
      batches == if callback then Stream.Delivered(Stream.Run(c, start, Samples(setup, done), Times(done)).closed) else []
  {
    batches := [];
    var at := Stream.Cursor(0, 0, start);
    ghost var state := Stream.Run<Response>(c, start, [], []);
    var k := 0;
    assert ticks[..0] == [];
    while k < |ticks|
      invariant k <= |ticks| && Completed(ticks) == FirstStop(ticks, k)
      invariant InStep(c, setup, start, ticks, k, Loads(prev[..], curr[..]), state)
      invariant Stream.Tracks(c, at, buf[..], batches, callback, state)
    {
      ghost var before := Loads(prev[..], curr[..]);
      var _ := GetProcStat(ticks[k].first, prev);
      if ticks[k].stopped {
        break;
      }
      at, batches, state := Complete(c, setup, start, ticks, k, prev, curr, buf, at, batches, callback, before, state);
      k := k + 1;
    }
    assert Completed(ticks) == k;
  }

  /** After k completed iterations: the load arrays, and the state of the streaming discipline. */
  ghost predicate InStep(c: Stream.Config, setup: Setup, start: nat, ticks: seq<Tick>, k: nat, loads: Loads,
                         state: Stream.State<Response>)
    requires k <= |ticks| && Fits(|setup.caps|, ticks)
  {
    && loads == LoadsAfter(|setup.caps|, ticks[..k])
    && state == Stream.Run(c, start, Samples(setup, ticks[..k]), Times(ticks[..k]))
  }

  /** An iteration that is not stopped after its first snapshot, which is already in prev. */
  method Complete(c: Stream.Config, setup: Setup, ghost start: nat, ticks: seq<Tick>, k: nat,
                  prev: array<LoadInfo>, curr: array<LoadInfo>, buf: array<Response>,
                  at: Stream.Cursor, batches: seq<seq<Response>>, callback: bool,
                  ghost before: Loads, ghost state: Stream.State<Response>)
      returns (next: Stream.Cursor, sent: seq<seq<Response>>, ghost after: Stream.State<Response>)
    requires c.rule == Stream.CloseWhenDue && c.capacity == buf.Length && k < |ticks| && Fits(|setup.caps|, ticks)
    requires prev != curr && InStep(c, setup, start, ticks, k, before, state)
    requires prev[..] == Taken(before.prev, ticks[k].first) && curr[..] == before.curr
    requires Stream.Tracks(c, at, buf[..], batches, callback, state)
    modifies curr, buf
    ensures prev[..] == old(prev[..]) && InStep(c, setup, start, ticks, k + 1, Loads(prev[..], curr[..]), after)
    ensures Stream.Tracks(c, next, buf[..], sent, callback, after)
  {
    var tick := ticks[k];
    var _ := GetProcStat(tick.second, curr);
    ghost var loads := Loads(prev[..], curr[..]);
    ghost var sample := NextInStep(c, setup, start, ticks, k, before, loads, state);
    next, sent := Iterate(c, setup, prev, curr, buf, at, tick, batches, callback, state, sample);
    after := Stream.Step(c, state, sample, tick.now);
  }

  /** The readings of tick k extend the run by one step. */
  lemma NextInStep(c: Stream.Config, setup: Setup, start: nat, ticks: seq<Tick>, k: nat, before: Loads, loads: Loads,
                   state: Stream.State<Response>) returns (sample: seq<Response>)
    requires k < |ticks| && Fits(|setup.caps|, ticks) && InStep(c, setup, start, ticks, k, before, state)
    requires loads == Loads(Taken(before.prev, ticks[k].first), Taken(before.curr, ticks[k].second))
    ensures |ticks[k].frequency| == |setup.caps| == |ticks[k].dcvs| == |loads.prev| == |loads.curr|
    ensures sample == Readings(setup, Usages(loads), ticks[k])
    ensures InStep(c, setup, start, ticks, k + 1, loads, Stream.Step(c, state, sample, ticks[k].now))
  {
    OneMoreTick(setup, ticks, k);
    sample := Readings(setup, Usages(loads), ticks[k]);
    Stream.RunSnoc(c, start, Samples(setup, ticks[..k]), Times(ticks[..k]), sample, ticks[k].now);
  }

  /** The part of an iteration after the snapshots: measure, emit, and deliver a due window. */
  method Iterate(c: Stream.Config, setup: Setup, prev: array<LoadInfo>, curr: array<LoadInfo>, buf: array<Response>,
                 at: Stream.Cursor, tick: Tick, batches: seq<seq<Response>>, callback: bool,
                 ghost state: Stream.State<Response>, ghost sample: seq<Response>)
      returns (next: Stream.Cursor, sent: seq<seq<Response>>)
    requires c.rule == Stream.CloseWhenDue && c.capacity == buf.Length
    requires prev.Length == curr.Length == |setup.caps| == |tick.frequency| == |tick.dcvs|
    requires sample == Readings(setup, Usages(Loads(prev[..], curr[..])), tick)
    requires Stream.Tracks(c, at, buf[..], batches, callback, state)
    modifies buf
    ensures Stream.Tracks(c, next, buf[..], sent, callback, Stream.Step(c, state, sample, tick.now))
  {
    assert buf[..][..at.position] == buf[..at.position];
    var usage, total, effective := Measure(prev, curr, setup);
    var end := Emit(buf, at.position, setup, usage, total, effective, tick);
    assert Take(Stream.Pending(state) + sample, c.capacity)
        == Stream.Pending(state) + Stream.Kept(c, Stream.Pending(state), sample);
    next, sent := Stream.FlushWhenDue(c, buf, at, end, tick.now, callback, batches, state, sample);
  }

  lemma {:induction false} OneMoreTick(setup: Setup, ticks: seq<Tick>, k: nat)
    requires k < |ticks| && Fits(|setup.caps|, ticks)
    ensures Fits(|setup.caps|, ticks[..k]) && Fits(|setup.caps|, ticks[..k + 1])
    ensures ticks[..k + 1][..k] == ticks[..k]
    ensures Times(ticks[..k + 1]) == Times(ticks[..k]) + [ticks[k].now]
    ensures var n := |setup.caps|;
            var before := LoadsAfter(n, ticks[..k]);
            LoadsAfter(n, ticks[..k + 1]) == Loads(Taken(before.prev, ticks[k].first), Taken(before.curr, ticks[k].second))
    ensures Samples(setup, ticks[..k + 1])
         == Samples(setup, ticks[..k]) + [Readings(setup, Usages(LoadsAfter(|setup.caps|, ticks[..k + 1])), ticks[k])]
  {
    assert ticks[..k + 1][..k] == ticks[..k] && ticks[..k + 1][k] == ticks[k];
  }

  // ----- Results about whole runs

  function LinesOf(lines: Option<seq<Line>>): seq<Line> {
    if lines.Some? then lines.value else []
  }

  /** Every line of /proc/stat that a run reads, in order. */
  function AllLines(ticks: seq<Tick>): seq<Line> {
    if ticks == [] then []
    else
      var k := |ticks| - 1;
      AllLines(ticks[..k]) + LinesOf(ticks[k].first) + LinesOf(ticks[k].second)
  }

  lemma {:induction false} LoadsAreFromTrace(n: nat, ticks: seq<Tick>)
    ensures AllFromTrace(LoadsAfter(n, ticks).prev, AllLines(ticks)) && AllFromTrace(LoadsAfter(n, ticks).curr, AllLines(ticks))
  {
    if ticks != [] {
      var k := |ticks| - 1;
      LoadsAreFromTrace(n, ticks[..k]);
      var before, t, trace := LoadsAfter(n, ticks[..k]), ticks[k], AllLines(ticks[..k]);
      var first, second := LinesOf(t.first), LinesOf(t.second);
      SnapshotIsFromTrace(before.prev, trace, first, 0);
      LongerTrace(Taken(before.prev, t.first), trace + first, second);
      LongerTrace(before.curr, trace, first);
      SnapshotIsFromTrace(before.curr, trace + first, second, 0);
      assert trace + first + [] == trace + first;
    }
  }

  /**
   Cores may come and go: whichever cores are missing from whichever snapshots, the
   usage of every core is sound after every iteration, as long as the counters
   themselves never go backwards.
   */
  lemma {:induction false} HotPlugIsSound(n: nat, ticks: seq<Tick>)
    requires Monotone(AllLines(ticks))
    ensures forall c :: 0 <= c < n ==> Sound(Usages(LoadsAfter(n, ticks))[c])
  {
    LoadsAreFromTrace(n, ticks);
    var l := LoadsAfter(n, ticks);
    forall c | 0 <= c < n ensures Sound(Usages(l)[c]) {
      SlotsAreSound(l.prev[c], l.curr[c], c, AllLines(ticks));
    }
  }

  lemma {:induction false} SampleOfTick(setup: Setup, ticks: seq<Tick>, k: nat)
    requires Fits(|setup.caps|, ticks) && k < |ticks|
    ensures Samples(setup, ticks)[k] == Readings(setup, Usages(LoadsAfter(|setup.caps|, ticks[..k + 1])), ticks[k])
  {
    var n := |ticks| - 1;
    if k < n {
      SampleOfTick(setup, ticks[..n], k);
      assert ticks[..n][..k + 1] == ticks[..k + 1];
    } else {
      assert ticks[..k + 1] == ticks;
    }
  }

  /** The slots of a core after an iteration that met it in both snapshots. */
  lemma {:induction false} SlotsOfCore(n: nat, ticks: seq<Tick>, k: nat, c: nat, i: nat, j: nat)
    requires k < |ticks| && c < n && ticks[k].first.Some? && ticks[k].second.Some?
    requires IsLastOf(ticks[k].first.value, 0, n, c, i) && IsLastOf(ticks[k].second.value, 0, n, c, j)
    ensures var l := LoadsAfter(n, ticks[..k + 1]);
            && l.prev[c] == LoadOf(ticks[k].first.value[i].f) && l.curr[c] == LoadOf(ticks[k].second.value[j].f)
  {
    var before := LoadsAfter(n, ticks[..k]);
    assert ticks[..k + 1][..k] == ticks[..k];
    SlotHoldsTheLastLine(before.prev, ticks[k].first.value, 0, c, i);
    SlotHoldsTheLastLine(before.curr, ticks[k].second.value, 0, c, j);
  }

  /**
   From /proc/stat to the reading: in iteration k of any run, the load that goes out for
   a core that both snapshots met is the percentage of time that its counters, f in the
   first snapshot and g in the second, say it was busy; 0 if no time passed between them.
   */
  lemma {:induction false} LoadIsMeasured(setup: Setup, ticks: seq<Tick>, k: nat, c: nat, i: nat, j: nat, r: Response)
    requires Fits(|setup.caps|, ticks) && k < |ticks| && c < |setup.caps| && ticks[k].first.Some? && ticks[k].second.Some?
    requires IsLastOf(ticks[k].first.value, 0, |setup.caps|, c, i) && IsLastOf(ticks[k].second.value, 0, |setup.caps|, c, j)
    requires r in Samples(setup, ticks)[k] && r.id == 5 * c + 2
    ensures r.timestamp == ticks[k].now && r.value.Double?
    ensures var f, g := ticks[k].first.value[i].f, ticks[k].second.value[j].f;
            AtMost(f, g) ==> IsBusyShare(r.value.x, f, g)
  {
    LoadIsOfItsLines(setup, ticks, k, c, i, j, r);
    if AtMost(ticks[k].first.value[i].f, ticks[k].second.value[j].f) {
      UtilizationIsTheBusyShare(ticks[k].first.value[i].f, ticks[k].second.value[j].f);
    }
  }

  lemma {:induction false} LoadIsOfItsLines(setup: Setup, ticks: seq<Tick>, k: nat, c: nat, i: nat, j: nat, r: Response)
    requires Fits(|setup.caps|, ticks) && k < |ticks| && c < |setup.caps| && ticks[k].first.Some? && ticks[k].second.Some?
    requires IsLastOf(ticks[k].first.value, 0, |setup.caps|, c, i) && IsLastOf(ticks[k].second.value, 0, |setup.caps|, c, j)
    requires r in Samples(setup, ticks)[k] && r.id == 5 * c + 2
    ensures r == Response(r.id, ticks[k].now,
                          Double(UsageOf(LoadOf(ticks[k].first.value[i].f), LoadOf(ticks[k].second.value[j].f)).utilization))
  {
    SampleOfTick(setup, ticks, k);
    LoadOfCore(setup, Usages(LoadsAfter(|setup.caps|, ticks[..k + 1])), ticks[k], c, r);
    SlotsOfCore(|setup.caps|, ticks, k, c, i, j);
  }

  lemma {:induction false} LoadOfCore(setup: Setup, usage: seq<Usage>, tick: Tick, c: nat, r: Response)
    requires c < |usage| == |setup.caps| == |tick.frequency| == |tick.dcvs|
    requires r in Readings(setup, usage, tick) && r.id == 5 * c + 2
    ensures r == Response(r.id, tick.now, Double(usage[c].utilization))
  {
    ReadingsMean(setup, usage, tick, r);
    var d: nat :| IsReadingOf(usage, tick, d, r);
    assert d == c;
  }

  /** The totals of a sample are percentages, the effective one not above the other, also when capacity reads failed later. */
  lemma {:induction false} TotalsAreSound(setup: Setup, ticks: seq<Tick>)
    requires Monotone(AllLines(ticks)) && Sum(setup.caps) <= setup.total
    ensures var u := Usages(LoadsAfter(|setup.caps|, ticks));
            0.0 <= Weighted(Effectives(u), setup.caps, setup.total) <= Weighted(Utilizations(u), setup.caps, setup.total) <= 100.0
  {
    HotPlugIsSound(|setup.caps|, ticks);
    SoundUsageHasSoundTotals(Usages(LoadsAfter(|setup.caps|, ticks)), setup.caps, setup.total);
  }

  lemma {:induction false} SoundUsageHasSoundTotals(u: seq<Usage>, caps: seq<nat>, total: nat)
    requires |u| == |caps| && Sum(caps) <= total && forall c :: 0 <= c < |u| ==> Sound(u[c])
    ensures 0.0 <= Weighted(Effectives(u), caps, total) <= Weighted(Utilizations(u), caps, total) <= 100.0
  {
    TotalIsAPercentage(Utilizations(u), caps, total);
    TotalIsAPercentage(Effectives(u), caps, total);
    WeightedIsMonotone(Effectives(u), Utilizations(u), caps, total);
  }

  /** The capacities of a run: those the total is made of, and the ones that are read once more. */
  function SetupOf(first: seq<Option<nat>>, later: seq<Option<nat>>): Setup {
    Setup(Sum(Known(first)), Known(later))
  }

  /** As the thread reads them, capacities keep the totals sound; if none is missing, a total lies among the core loads. */
  lemma {:induction false} ReadCapacitiesKeepTotalsSound(first: seq<Option<nat>>, later: seq<Option<nat>>, ticks: seq<Tick>, lo: real, hi: real)
    requires Consistent(first, later) && Monotone(AllLines(ticks))
    ensures var setup := SetupOf(first, later);
            var u := Usages(LoadsAfter(|setup.caps|, ticks));
            && 0.0 <= Weighted(Effectives(u), setup.caps, setup.total) <= Weighted(Utilizations(u), setup.caps, setup.total) <= 100.0
            && ((forall c :: 0 <= c < |later| ==> later[c].Some?) && setup.total > 0
                && (forall c :: 0 <= c < |u| ==> lo <= u[c].utilization <= hi) ==>
                  lo <= Weighted(Utilizations(u), setup.caps, setup.total) <= hi)
  {
    var setup := SetupOf(first, later);
    var u := Usages(LoadsAfter(|setup.caps|, ticks));
    LaterCapacitiesFit(first, later);
    TotalsAreSound(setup, ticks);
    if (forall c :: 0 <= c < |later| ==> later[c].Some?) && setup.total > 0
       && (forall c :: 0 <= c < |u| ==> lo <= u[c].utilization <= hi) {
      TotalIsConvex(Utilizations(u), setup.caps, setup.total, lo, hi);
    }
  }

  function Count(flags: seq<bool>): nat {
    if flags == [] then 0 else Count(flags[..|flags| - 1]) + if flags[|flags| - 1] then 1 else 0
  }

  lemma {:induction false} AdvertisedCount(dcvs: seq<bool>)
    ensures |AdvertisedIds(dcvs)| == TOTALS + |dcvs| * 4 + Count(dcvs)
  {
    if dcvs != [] {
      AdvertisedCount(dcvs[..|dcvs| - 1]);
    }
  }

  /** No sample of the run reads more DCVS limits than were advertised. */
  ghost predicate WithinAdvertisement(dcvs: seq<bool>, ticks: seq<Tick>) {
    Fits(|dcvs|, ticks) && forall i :: 0 <= i < |ticks| ==> Count(Readable(ticks[i].dcvs)) <= Count(dcvs)
  }

  lemma {:induction false} SamplesWithinAdvertisement(setup: Setup, dcvs: seq<bool>, ticks: seq<Tick>)
    requires |setup.caps| == |dcvs| && WithinAdvertisement(dcvs, ticks)
    ensures Stream.AtMost(|AdvertisedIds(dcvs)|, Samples(setup, ticks))
  {
    if ticks != [] {
      var k := |ticks| - 1;
      SamplesWithinAdvertisement(setup, dcvs, ticks[..k]);
      SampleEmitsAdvertisedIds(setup, Usages(LoadsAfter(|dcvs|, ticks)), ticks[k]);
      AdvertisedCount(dcvs);
      AdvertisedCount(Readable(ticks[k].dcvs));
    }
  }

  /** With the same DCVS nodes readable as at init, every sample of a run carries exactly the advertised ids, in their order. */
  lemma {:induction false} SamplesCarryTheAdvertisedIds(setup: Setup, dcvs: seq<bool>, ticks: seq<Tick>, k: nat)
    requires |setup.caps| == |dcvs| && Fits(|dcvs|, ticks) && k < |ticks|
    requires forall i :: 0 <= i < |ticks| ==> Readable(ticks[i].dcvs) == dcvs
    ensures Ids(Samples(setup, ticks)[k]) == AdvertisedIds(dcvs)
  {
    var n := |ticks| - 1;
    if k < n {
      SamplesCarryTheAdvertisedIds(setup, dcvs, ticks[..n], k);
    } else {
      SampleEmitsAdvertisedIds(setup, Usages(LoadsAfter(|dcvs|, ticks)), ticks[n]);
    }
  }

  /** Then nothing is lost, and windows are 1 to samples-per-stream whole samples. */
  lemma {:induction false} NothingIsLost(setup: Setup, dcvs: seq<bool>, streaming: nat, sampling: nat, start: nat, ticks: seq<Tick>)
    requires streaming in STREAMING_RATES && sampling in SAMPLING_RATES
    requires |setup.caps| == |dcvs| && WithinAdvertisement(dcvs, ticks)
    ensures var s := Stream.Run(Discipline(streaming, sampling, |AdvertisedIds(dcvs)|), start, Samples(setup, ticks), Times(ticks));
            && Flatten(Stream.Delivered(s.closed)) + Stream.Pending(s) == Flatten(Samples(setup, ticks))
            && Flatten(s.closed) + s.window == Samples(setup, ticks)
            && forall i :: 0 <= i < |s.closed| ==> 1 <= |s.closed[i]| <= Stream.SamplesPerStream(streaming, sampling)
  {
    var m := |AdvertisedIds(dcvs)|;
    var c := Discipline(streaming, sampling, m);
    SamplesWithinAdvertisement(setup, dcvs, ticks);
    Stream.ArraysAreSpacious(c, streaming, sampling, m);
    Stream.Lossless(c, m, start, Samples(setup, ticks), Times(ticks));
    Stream.WindowsPartitionTheRun(c, m, start, Samples(setup, ticks), Times(ticks));
    Stream.WindowSizes(c, start, Samples(setup, ticks), Times(ticks));
  }

  /**
   With DCVS nodes coming and going as they like, the array is never overrun, and the
   readings all arrive if and only if no sample meets an array too full for it. In any
   case every window is handed over with the first sample that covers the streaming interval.
   */
  lemma {:induction false} AnyDcvsIsContained(setup: Setup, advertised: nat, streaming: nat, sampling: nat, start: nat, ticks: seq<Tick>)
    requires 0 < sampling && Fits(|setup.caps|, ticks)
    ensures var c, all := Discipline(streaming, sampling, advertised), Samples(setup, ticks);
            var s := Stream.Run(c, start, all, Times(ticks));
            && |Stream.Pending(s)| <= c.capacity
            && (forall b :: b in Stream.Delivered(s.closed) ==> 1 <= |b| <= c.capacity)
            && (Stream.Reported(s) == Flatten(all) <==> Stream.Fitted(c, start, all, Times(ticks)))
            && HandOver.OnTime(HandOver.Terms(Stream.CloseWhenDue, streaming, sampling, start), Times(ticks), s)
  {
    var c, all := Discipline(streaming, sampling, advertised), Samples(setup, ticks);
    HandOver.RunIsInTime(HandOver.Terms(Stream.CloseWhenDue, streaming, sampling, start), advertised, all, Times(ticks));
    Stream.BatchesFit(c, start, all, Times(ticks));
    Stream.LosslessIffFitted(c, start, all, Times(ticks));
  }

  /** The run that loses a reading: a DCVS node that becomes readable only after init does not fit in the first sample. */
  lemma {:induction false} LateDcvsIsCut(limit: nat, start: nat)
    ensures var setup, ticks := Setup(1, [1]), [Tick(None, false, None, [0.0], [Some(limit)], start)];
            var c := Discipline(200, 200, |AdvertisedIds([false])|);
            Stream.Reported(Stream.Run(c, start, Samples(setup, ticks), Times(ticks))) != Flatten(Samples(setup, ticks))
  {
    var setup, tick := Setup(1, [1]), Tick(None, false, None, [0.0], [Some(limit)], start);
    var ticks, c := [tick], Discipline(200, 200, |AdvertisedIds([false])|);
    var all := Samples(setup, ticks);
    assert ticks[..0] == [];
    SampleEmitsAdvertisedIds(setup, Usages(LoadsAfter(1, ticks)), tick);
    AdvertisedCount([false]);
    AdvertisedCount(Readable(tick.dcvs));
    OneOrNone(Readable(tick.dcvs)[0]);
    OneOrNone(false);
    assert Readable(tick.dcvs) == [true] && all == [Readings(setup, Usages(LoadsAfter(1, ticks)), tick)];
    assert |all[0]| == 7 && c.capacity == 6;
    assert !Stream.FitsAt(c, start, all, Times(ticks), 0);
    Stream.LosslessIffFitted(c, start, all, Times(ticks));
  }

  lemma OneOrNone(flag: bool)
    ensures Count([flag]) == if flag then 1 else 0
  {
    assert [flag][..0] == [];
  }
}
