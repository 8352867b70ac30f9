/**
 The loop of the GPU sampling thread. Either reading may fail in any iteration; a
 window in which nothing was read is not delivered and its counters run on.
 */
module GpuCollector {
  import opened Common
  import opened Responses
  import HandOver
  import Stream

  const METRIC_COUNT: nat := 2   // LINUX_GPU_CAPABILITY_0_METRIC_COUNT
  const STREAMING_RATES: seq<nat> := [100, 200, 300, 400, 500, 600, 700, 800, 900, 1000]
  const SAMPLING_RATES: seq<nat> := [1, 5, 10, 50, 100, 200]

  /** One loop iteration: utilization and clock, if they could be read, and the time. */
  datatype Tick = Tick(utilization: Option<real>, clock: Option<real>, now: nat)

  function Times(ticks: seq<Tick>): seq<nat> {
    seq(|ticks|, i requires 0 <= i < |ticks| => ticks[i].now)
  }

  /** The valid readings of one iteration: a missing node only drops its own metric. */
  function Readings(t: Tick): (r: seq<Response>)
    ensures |r| <= METRIC_COUNT
  {
    (if t.utilization.Some? then [Response(0, t.now, Double(t.utilization.value))] else [])
    + (if t.clock.Some? then [Response(1, t.now, Double(t.clock.value))] else [])
  }

  function Samples(ticks: seq<Tick>): (s: seq<seq<Response>>)
    ensures |s| == |ticks| && Stream.AtMost(METRIC_COUNT, s)
  {
    seq(|ticks|, i requires 0 <= i < |ticks| => Readings(ticks[i]))
  }

  function Discipline(streaming: nat, sampling: nat): Stream.Config
    requires 0 < sampling
  {
    Stream.Discipline(Stream.CloseOnDelivery, streaming, sampling, METRIC_COUNT)
  }

  /** What one iteration takes: its valid readings, or none of them if the array has no room for both metrics. */
  function Taken(c: Stream.Config, s: Stream.State<Response>, t: Tick): (r: seq<Response>)
    ensures Stream.Kept(c, Stream.Pending(s), r) == r || |Stream.Pending(s)| > c.capacity
    ensures |r| <= |Readings(t)|
  {
    if |Stream.Pending(s)| + METRIC_COUNT <= c.capacity then Readings(t) else []
  }

  /** The run of the loop over the ticks. */
  function RunOf(c: Stream.Config, start: nat, ticks: seq<Tick>): Stream.State<Response> {
    if ticks == [] then Stream.State([], 0, start, [])
    else
      var n := |ticks| - 1;
      var s := RunOf(c, start, ticks[..n]);
      Stream.Step(c, s, Taken(c, s, ticks[n]), ticks[n].now)
  }

  /** The readings of one iteration, appended to the array. */
  method Append(buf: array<Response>, len: nat, tick: Tick) returns (end: nat)
    requires len + METRIC_COUNT <= buf.Length
    modifies buf
    ensures end <= buf.Length && buf[..end] == old(buf[..len]) + Readings(tick)
  {
    end := len;
    var ids, values := [0, 1], [tick.utilization, tick.clock];
    for m := 0 to METRIC_COUNT
      invariant len <= end <= len + m
      invariant m == 0 ==> buf[..end] == old(buf[..len])
      invariant m == 1 ==> buf[..end] == old(buf[..len]) + (if tick.utilization.Some? then [Response(0, tick.now, Double(tick.utilization.value))] else [])
      invariant m == 2 ==> buf[..end] == old(buf[..len]) + Readings(tick)
    {
      if values[m].Some? {
        end := Stream.Put(buf, end, Response(ids[m], tick.now, Double(values[m].value)));
      }
    }
  }

  /**
   collect_gpu_data, for a request whose rates were accepted. The callback is set,
   as OneCollectorWithACallback of the protocol shows. granted tells whether the
   response array can be allocated; otherwise the thread leaves at once.
   */
  method CollectGpuData(granted: bool, streaming: nat, sampling: nat, start: nat, ticks: seq<Tick>)
      returns (batches: seq<seq<Response>>)
    requires streaming in STREAMING_RATES && sampling in SAMPLING_RATES
    ensures batches == if granted then Stream.Delivered(RunOf(Discipline(streaming, sampling), start, ticks).closed) else []
  {
    batches := [];
    if !granted {
      return;
    }
    var c := Discipline(streaming, sampling);
    var buf := new Response[c.capacity](_ => BLANK);
    var at := Stream.Cursor(0, 0, start);
    ghost var state := RunOf(c, start, []);
    for k := 0 to |ticks|
      invariant state == RunOf(c, start, ticks[..k])
      invariant Stream.Tracks(c, at, buf[..], batches, true, state)
    {
      at, batches := Iterate(c, buf, at, ticks[k], batches, state);
      assert ticks[..k + 1][..k] == ticks[..k];
      state := Stream.Step(c, state, Taken(c, state, ticks[k]), ticks[k].now);
    }
    assert ticks[..|ticks|] == ticks;
  }

  /** The body of the loop; at.position is metric_response_len. */
  method Iterate(c: Stream.Config, buf: array<Response>, at: Stream.Cursor, tick: Tick, batches: seq<seq<Response>>,
                 ghost state: Stream.State<Response>) returns (next: Stream.Cursor, sent: seq<seq<Response>>)
    requires c.rule == Stream.CloseOnDelivery && c.capacity == buf.Length
    requires Stream.Tracks(c, at, buf[..], batches, true, state)
    modifies buf
    ensures Stream.Tracks(c, next, buf[..], sent, true, Stream.Step(c, state, Taken(c, state, tick), tick.now))
  {
    Stream.StepOnPending(c, state, Taken(c, state, tick), tick.now);
    assert buf[..][..at.position] == buf[..at.position];
    var len := at.position;
    var anyValid := tick.utilization.Some? || tick.clock.Some?;
    if anyValid && len + METRIC_COUNT <= buf.Length {
      len := Append(buf, len, tick);
    }
    assert buf[..len] == Stream.Pending(state) + Taken(c, state, tick);
    next, sent := Stream.Cursor(len, Stream.Increment(at.count), at.last), batches;
    if (next.count >= c.samples || Stream.Elapsed(tick.now, next.last) >= c.rateNs) && len > 0 {
      sent := sent + [buf[..len]];
      next := Stream.Cursor(0, 0, tick.now);
    }
    assert buf[..][..next.position] == buf[..next.position];
  }

  lemma OneMoreTick(ticks: seq<Tick>, k: nat)
    requires k < |ticks|
    ensures Samples(ticks[..k + 1]) == Samples(ticks[..k]) + [Readings(ticks[k])]
    ensures Times(ticks[..k + 1]) == Times(ticks[..k]) + [ticks[k].now]
  {
  }

  /** Until the 32-bit counter can wrap, every iteration takes all its readings. */
  lemma {:induction false} RunTakesEverything(streaming: nat, sampling: nat, start: nat, ticks: seq<Tick>)
    requires streaming in STREAMING_RATES && sampling in SAMPLING_RATES && |ticks| < UINT32_SPAN
    ensures var c := Discipline(streaming, sampling);
            RunOf(c, start, ticks) == Stream.Run(c, start, Samples(ticks), Times(ticks))
  {
    if ticks != [] {
      var n, c := |ticks| - 1, Discipline(streaming, sampling);
      RunTakesEverything(streaming, sampling, start, ticks[..n]);
      Stream.ArraysAreSpacious(c, streaming, sampling, METRIC_COUNT);
      Stream.RunHasRoom(c, METRIC_COUNT, start, Samples(ticks[..n]), Times(ticks[..n]), Readings(ticks[n]));
      StreamSnoc(c, start, ticks);
    }
  }

  lemma {:induction false} StreamSnoc(c: Stream.Config, start: nat, ticks: seq<Tick>)
    requires ticks != []
    ensures var n := |ticks| - 1;
            Stream.Run(c, start, Samples(ticks), Times(ticks))
            == Stream.Step(c, Stream.Run(c, start, Samples(ticks[..n]), Times(ticks[..n])), Readings(ticks[n]), ticks[n].now)
  {
    var n := |ticks| - 1;
    assert ticks[..n + 1] == ticks;
    OneMoreTick(ticks, n);
    Stream.RunSnoc(c, start, Samples(ticks[..n]), Times(ticks[..n]), Readings(ticks[n]), ticks[n].now);
  }

  /**
   No valid reading is dropped for lack of room, whatever reads fail: delivered and
   pending readings are all readings of the run, in order, and what is pending was not due.
   */
  lemma {:induction false} EveryReadingArrives(streaming: nat, sampling: nat, start: nat, ticks: seq<Tick>)
    requires streaming in STREAMING_RATES && sampling in SAMPLING_RATES && |ticks| < UINT32_SPAN
    ensures var s := RunOf(Discipline(streaming, sampling), start, ticks);
            && Stream.Reported(s) == Flatten(Samples(ticks))
            && (Stream.Pending(s) != [] ==>
                  s.count < Stream.SamplesPerStream(streaming, sampling)
                  && Stream.Elapsed(ticks[|ticks| - 1].now, s.last) < streaming * Stream.NS_PER_MS)
  {
    var c := Discipline(streaming, sampling);
    RunTakesEverything(streaming, sampling, start, ticks);
    Stream.ArraysAreSpacious(c, streaming, sampling, METRIC_COUNT);
    Stream.Lossless(c, METRIC_COUNT, start, Samples(ticks), Times(ticks));
    if ticks != [] {
      Stream.PendingIsNotDue(c, start, Samples(ticks), Times(ticks));
    }
  }

  // ----- Runs of any length

  /**
   Every window is handed over with the first iteration after which it holds a reading
   and covers the streaming interval, by the iterations counted since the last delivery
   or by the time passed since then, and never before.
   */
  lemma {:induction false} EveryWindowIsOnTime(streaming: nat, sampling: nat, start: nat, ticks: seq<Tick>)
    requires 0 < sampling
    ensures HandOver.InTime(HandOver.Terms(Stream.CloseOnDelivery, streaming, sampling, start), Times(ticks),
                            RunOf(Discipline(streaming, sampling), start, ticks))
  {
    var terms, c := HandOver.Terms(Stream.CloseOnDelivery, streaming, sampling, start), Discipline(streaming, sampling);
    if ticks == [] {
      HandOver.StartIsInTime<Response>(terms);
    } else {
      var n := |ticks| - 1;
      var s, t := RunOf(c, start, ticks[..n]), ticks[n];
      EveryWindowIsOnTime(streaming, sampling, start, ticks[..n]);
      LastTick(c, start, ticks);
      HandOver.StepIsInTime(terms, METRIC_COUNT, Times(ticks[..n]), s, Taken(c, s, t), t.now);
    }
  }

  lemma {:induction false} LastTick(c: Stream.Config, start: nat, ticks: seq<Tick>)
    requires ticks != []
    ensures var n := |ticks| - 1;
            var s := RunOf(c, start, ticks[..n]);
            Times(ticks) == Times(ticks[..n]) + [ticks[n].now]
            && RunOf(c, start, ticks) == Stream.Step(c, s, Taken(c, s, ticks[n]), ticks[n].now)
  {
    var n := |ticks| - 1;
    assert Times(ticks) == Times(ticks[..n]) + [ticks[n].now] by {
      assert ticks[..n + 1] == ticks;
      OneMoreTick(ticks, n);
    }
    LastStep(c, start, ticks);
  }

  lemma {:induction false} LastStep(c: Stream.Config, start: nat, ticks: seq<Tick>)
    requires ticks != []
    ensures var n := |ticks| - 1;
            var s := RunOf(c, start, ticks[..n]);
            RunOf(c, start, ticks) == Stream.Step(c, s, Taken(c, s, ticks[n]), ticks[n].now)
  {
  }

  /** Iteration k finds room for both metrics, or has nothing to store. */
  predicate RoomAt(c: Stream.Config, start: nat, ticks: seq<Tick>, k: nat)
    requires k < |ticks|
  {
    |Stream.Pending(RunOf(c, start, ticks[..k]))| + METRIC_COUNT <= c.capacity || Readings(ticks[k]) == []
  }

  ghost predicate AlwaysRoom(c: Stream.Config, start: nat, ticks: seq<Tick>) {
    forall k :: 0 <= k < |ticks| ==> RoomAt(c, start, ticks, k)
  }

  lemma RoomAtPrefix(c: Stream.Config, start: nat, ticks: seq<Tick>, n: nat, k: nat)
    requires k < n <= |ticks|
    ensures RoomAt(c, start, ticks[..n], k) == RoomAt(c, start, ticks, k)
  {
    assert ticks[..n][..k] == ticks[..k];
  }

  lemma RoomSnoc(c: Stream.Config, start: nat, ticks: seq<Tick>)
    requires ticks != []
    ensures var n := |ticks| - 1;
            AlwaysRoom(c, start, ticks) <==> AlwaysRoom(c, start, ticks[..n]) && RoomAt(c, start, ticks, n)
  {
    var n := |ticks| - 1;
    forall k: nat | k < n {
      RoomAtPrefix(c, start, ticks, n, k);
    }
  }

  lemma {:induction false} PendingFits(c: Stream.Config, start: nat, ticks: seq<Tick>)
    ensures |Stream.Pending(RunOf(c, start, ticks))| <= c.capacity
  {
    if ticks != [] {
      var n := |ticks| - 1;
      var s := RunOf(c, start, ticks[..n]);
      PendingFits(c, start, ticks[..n]);
      Stream.StepOnPending(c, s, Taken(c, s, ticks[n]), ticks[n].now);
    }
  }

  /** Without any bound on the run: every reading is reported if and only if each iteration found room for it. */
  lemma {:induction false} LosslessIffRoom(c: Stream.Config, start: nat, ticks: seq<Tick>)
    ensures |Stream.Reported(RunOf(c, start, ticks))| <= |Flatten(Samples(ticks))|
    ensures Stream.Reported(RunOf(c, start, ticks)) == Flatten(Samples(ticks)) <==> AlwaysRoom(c, start, ticks)
  {
    if ticks != [] {
      var n := |ticks| - 1;
      var s, t := RunOf(c, start, ticks[..n]), ticks[n];
      LosslessIffRoom(c, start, ticks[..n]);
      RoomSnoc(c, start, ticks);
      PendingFits(c, start, ticks[..n]);
      Stream.StepReports(c, s, Taken(c, s, t), t.now);
      SamplesSnoc(ticks);
      Stream.EqualSums(Stream.Reported(s), Taken(c, s, t), Flatten(Samples(ticks[..n])), Readings(t));
    }
  }

  lemma SamplesSnoc(ticks: seq<Tick>)
    requires ticks != []
    ensures var n := |ticks| - 1;
            Flatten(Samples(ticks)) == Flatten(Samples(ticks[..n])) + Readings(ticks[n])
  {
    var n := |ticks| - 1;
    assert ticks[..n + 1] == ticks;
    OneMoreTick(ticks, n);
    FlattenSnoc(Samples(ticks[..n]), Readings(ticks[n]));
  }

  // ----- With a clock that moves, no run of any length loses a reading

  /** The clock of the iterations starts no earlier than the run, and advances by at least the pause between two of them. */
  ghost predicate Moving(start: nat, pause: nat, ticks: seq<Tick>) {
    && (ticks != [] ==> start <= ticks[0].now)
    && forall i, j :: 0 <= i < j < |ticks| && j == i + 1 ==> ticks[i].now + pause <= ticks[j].now
  }

  /**
   The open window has had age iterations, of which the counter knows the low 32 bits;
   the clock has moved along; and a window that holds a reading is young.
   */
  ghost predicate Aged(c: Stream.Config, pause: nat, s: Stream.State<Response>, now: nat, age: nat) {
    && s.count == age % UINT32_SPAN && s.last <= now
    && (age > 0 ==> s.last + Stream.Rows(age - 1, pause) <= now)
    && (Stream.Pending(s) == [] || (age < c.samples && |Stream.Pending(s)| <= Stream.Rows(age, METRIC_COUNT)))
  }

  /** The windows of a discipline: they cover the streaming interval, and the array holds a full one. */
  predicate Covering(c: Stream.Config, pause: nat) {
    && c.rule == Stream.CloseOnDelivery && 1 <= c.samples < UINT32_SPAN
    && c.rateNs <= Stream.Rows(c.samples, pause) && Stream.Rows(c.samples, METRIC_COUNT) <= c.capacity
  }

  lemma AgedHasRoom(c: Stream.Config, pause: nat, s: Stream.State<Response>, now: nat, age: nat)
    requires Covering(c, pause) && Aged(c, pause, s, now, age)
    ensures |Stream.Pending(s)| + METRIC_COUNT <= c.capacity
  {
    Stream.RowsGrow(if Stream.Pending(s) == [] then 0 else age, c.samples, METRIC_COUNT);
  }

  /** A window that is not due by time is young, however often its counter wrapped. */
  lemma NotDueIsYoung(c: Stream.Config, pause: nat, last: nat, now: nat, age: nat)
    requires Covering(c, pause) && age > 0 && last + Stream.Rows(age - 1, pause) <= now
    requires Stream.Elapsed(now, last) < c.rateNs
    ensures age <= c.samples && age % UINT32_SPAN == age
  {
    if age > c.samples {
      RowsAreMonotone(c.samples, age - 1, pause);
    }
  }

  lemma {:induction false} RowsAreMonotone(a: nat, b: nat, m: nat)
    requires a <= b
    ensures Stream.Rows(a, m) <= Stream.Rows(b, m)
  {
    if a < b {
      RowsAreMonotone(a, b - 1, m);
    }
  }

  lemma StepKeepsAge(c: Stream.Config, pause: nat, s: Stream.State<Response>, before: nat, age: nat, t: Tick) returns (next: nat)
    requires Covering(c, pause) && Aged(c, pause, s, before, age)
    requires before <= t.now && (age > 0 ==> before + pause <= t.now)
    ensures Aged(c, pause, Stream.Step(c, s, Taken(c, s, t), t.now), t.now, next)
  {
    var taken := Taken(c, s, t);
    var all := Stream.Pending(s) + taken;
    AgedHasRoom(c, pause, s, before, age);
    Stream.StepOnPending(c, s, taken, t.now);
    Stream.IncrementIsModular(age);
    if Stream.Due(c, Stream.Increment(s.count), s.last, t.now) && all != [] {
      next := 0;
    } else {
      next := age + 1;
      if all != [] {
        NotDueIsYoung(c, pause, s.last, t.now, next);
        RowsAreMonotone(1, next, METRIC_COUNT);
      }
    }
  }

  function LatestTime(start: nat, ticks: seq<Tick>): nat {
    if ticks == [] then start else ticks[|ticks| - 1].now
  }

  lemma {:induction false} MovingRunIsAged(c: Stream.Config, pause: nat, start: nat, ticks: seq<Tick>) returns (age: nat)
    requires Covering(c, pause) && Moving(start, pause, ticks)
    ensures Aged(c, pause, RunOf(c, start, ticks), LatestTime(start, ticks), age)
    ensures ticks == [] ==> age == 0
    ensures AlwaysRoom(c, start, ticks)
  {
    if ticks == [] {
      age := 0;
    } else {
      var n := |ticks| - 1;
      var a := MovingRunIsAged(c, pause, start, ticks[..n]);
      AgedHasRoom(c, pause, RunOf(c, start, ticks[..n]), LatestTime(start, ticks[..n]), a);
      RoomSnoc(c, start, ticks);
      assert n > 0 ==> ticks[n - 1].now + pause <= ticks[n].now;
      age := StepKeepsAge(c, pause, RunOf(c, start, ticks[..n]), LatestTime(start, ticks[..n]), a, ticks[n]);
    }
  }

  lemma RatesAreCovering(streaming: nat, sampling: nat)
    requires streaming in STREAMING_RATES && sampling in SAMPLING_RATES
    ensures Covering(Discipline(streaming, sampling), sampling * Stream.NS_PER_MS)
  {
    var c := Discipline(streaming, sampling);
    Stream.ArraysAreSpacious(c, streaming, sampling, METRIC_COUNT);
    Stream.RowsIsProduct(c.samples, sampling * Stream.NS_PER_MS);
    ScaledUp(c.samples, sampling, streaming, Stream.NS_PER_MS);
  }

  lemma ScaledUp(n: nat, a: nat, b: nat, k: nat)
    requires b <= n * a
    ensures b * k <= n * (a * k)
  {
    assert n * (a * k) == (n * a) * k;
  }

  /** The counter may wrap as often as it likes: while the clock moves with the pauses, every reading of every run is reported. */
  lemma {:induction false} MovingClockLosesNothing(streaming: nat, sampling: nat, start: nat, ticks: seq<Tick>)
    requires streaming in STREAMING_RATES && sampling in SAMPLING_RATES
    requires Moving(start, sampling * Stream.NS_PER_MS, ticks)
    ensures Stream.Reported(RunOf(Discipline(streaming, sampling), start, ticks)) == Flatten(Samples(ticks))
  {
    var c := Discipline(streaming, sampling);
    RatesAreCovering(streaming, sampling);
    var _ := MovingRunIsAged(c, sampling * Stream.NS_PER_MS, start, ticks);
    LosslessIffRoom(c, start, ticks);
  }

  /**
   So what is delivered or still pending is exactly what was read: utilizations as
   metric 0, clocks as metric 1, each with the time of its iteration.
   */
  lemma {:induction false} ReportedIsRead(streaming: nat, sampling: nat, start: nat, ticks: seq<Tick>, r: Response)
    requires streaming in STREAMING_RATES && sampling in SAMPLING_RATES
    requires Moving(start, sampling * Stream.NS_PER_MS, ticks)
    ensures r in Stream.Reported(RunOf(Discipline(streaming, sampling), start, ticks)) <==>
            exists k :: 0 <= k < |ticks| && r.timestamp == ticks[k].now
              && ((r.id == 0 && ticks[k].utilization.Some? && r.value == Double(ticks[k].utilization.value))
                  || (r.id == 1 && ticks[k].clock.Some? && r.value == Double(ticks[k].clock.value)))
  {
    MovingClockLosesNothing(streaming, sampling, start, ticks);
    InFlatten(Samples(ticks), r);
    assert forall k :: 0 <= k < |ticks| ==> Samples(ticks)[k] == Readings(ticks[k]);
  }

  // ----- With a clock that stands still, a long silence loses readings

  function Silent(n: nat, now: nat): (s: seq<Tick>)
    ensures |s| == n
  {
    seq(n, _ => Tick(None, None, now))
  }

  lemma {:induction false} SilenceCounts(c: Stream.Config, start: nat, n: nat)
    requires c.rule == Stream.CloseOnDelivery && n < UINT32_SPAN
    ensures var s := RunOf(c, start, Silent(n, start));
            Stream.Pending(s) == [] && s.count == n && s.last == start
  {
    if n > 0 {
      SilenceCounts(c, start, n - 1);
      SilentSnoc(n, start);
      RunSnoc(c, start, Silent(n - 1, start), Tick(None, None, start));
      SilentStep(c, RunOf(c, start, Silent(n - 1, start)), start);
    }
  }

  lemma SilentSnoc(n: nat, now: nat)
    requires n > 0
    ensures Silent(n, now) == Silent(n - 1, now) + [Tick(None, None, now)]
  {
  }

  lemma SilentStep(c: Stream.Config, s: Stream.State<Response>, now: nat)
    requires c.rule == Stream.CloseOnDelivery && Stream.Pending(s) == [] && s.count + 1 < UINT32_SPAN
    ensures var t := Stream.Step(c, s, Taken(c, s, Tick(None, None, now)), now);
            Stream.Pending(t) == [] && t.count == s.count + 1 && t.last == s.last
  {
    assert Taken(c, s, Tick(None, None, now)) == [];
    Stream.StepOnPending(c, s, [], now);
  }

  /** After that silence, a full reading fills the array, wraps the counter to 0 and is not due. */
  lemma WrappingIsNotDue(s: Stream.State<Response>, full: Tick)
    requires Stream.Pending(s) == [] && s.count == UINT32_SPAN - 1 && s.last == full.now && |Readings(full)| == METRIC_COUNT
    ensures var c := Discipline(100, 100);
            |Stream.Pending(Stream.Step(c, s, Taken(c, s, full), full.now))| == c.capacity
  {
    var c := Discipline(100, 100);
    Stream.StepOnPending(c, s, Taken(c, s, full), full.now);
  }

  /**
   The run that loses readings, all of it at one clock reading: 2^32 - 1 iterations
   without any, then two with both, the second of which finds a full array.
   */
  lemma LongSilenceLosesReadings(start: nat, full: Tick)
    requires |Readings(full)| == METRIC_COUNT && full.now == start
    ensures var c, ticks := Discipline(100, 100), Silent(UINT32_SPAN - 1, start) + [full] + [full];
            Stream.Reported(RunOf(c, start, ticks)) != Flatten(Samples(ticks))
  {
    var c, quiet := Discipline(100, 100), Silent(UINT32_SPAN - 1, start);
    SilenceCounts(c, start, UINT32_SPAN - 1);
    WrappingIsNotDue(RunOf(c, start, quiet), full);
    RunSnoc(c, start, quiet, full);
    FullArrayLoses(c, start, quiet + [full], full);
  }

  lemma {:induction false} FullArrayLoses(c: Stream.Config, start: nat, ticks: seq<Tick>, t: Tick)
    requires |Stream.Pending(RunOf(c, start, ticks))| == c.capacity && Readings(t) != []
    ensures Stream.Reported(RunOf(c, start, ticks + [t])) != Flatten(Samples(ticks + [t]))
  {
    var all := ticks + [t];
    assert all[..|ticks|] == ticks;
    assert !RoomAt(c, start, all, |ticks|);
    LosslessIffRoom(c, start, all);
  }

  lemma {:induction false} RunSnoc(c: Stream.Config, start: nat, ticks: seq<Tick>, t: Tick)
    ensures var s := RunOf(c, start, ticks);
            RunOf(c, start, ticks + [t]) == Stream.Step(c, s, Taken(c, s, t), t.now)
  {
    assert (ticks + [t])[..|ticks|] == ticks;
  }
}
