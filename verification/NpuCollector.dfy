/**
 The loop of the DSP NPU sampling thread. A query that fails, or reports no
 metrics, leaves its iteration without readings; the counters restart all the same.
 */
module NpuCollector {
  import opened Common
  import opened Responses
  import HandOver
  import Stream

  const METRIC_COUNT: nat := 4   // DSP_NPU_CAPABILITY_0_METRIC_COUNT
  const STREAMING_RATES: seq<nat> := [100, 200, 300, 400, 500, 600, 700, 800, 900, 1000]
  const SAMPLING_RATES: seq<nat> := [1, 5, 10, 50, 100, 200]

  datatype Profile = Profile(q6Utilization: real, q6Clock: real, hvxUtilization: real, hmxUtilization: real)

  /** One loop iteration: the answer of the DSP, how many metrics it claims, and the time. */
  datatype Tick = Tick(profile: Option<Profile>, metrics: int, now: nat)

  function Times(ticks: seq<Tick>): seq<nat> {
    seq(|ticks|, i requires 0 <= i < |ticks| => ticks[i].now)
  }

  function MetricOf(p: Profile, metric: nat): real {
    match metric
    case 0 => p.q6Utilization
    case 1 => p.q6Clock
    case 2 => p.hvxUtilization
    case _ => p.hmxUtilization
  }

  function Readings(t: Tick): (r: seq<Response>)
    ensures |r| == 0 || |r| == METRIC_COUNT
  {
    if t.profile.Some? && t.metrics > 0 then
      seq(METRIC_COUNT, m requires 0 <= m < METRIC_COUNT => Response(m, t.now, Double(MetricOf(t.profile.value, m))))
    else []
  }

  function Samples(ticks: seq<Tick>): (s: seq<seq<Response>>)
    ensures |s| == |ticks| && Stream.AtMost(METRIC_COUNT, s)
  {
    seq(|ticks|, i requires 0 <= i < |ticks| => Readings(ticks[i]))
  }

  function Discipline(streaming: nat, sampling: nat): Stream.Config
    requires 0 < sampling
  {
    Stream.Discipline(Stream.CloseWhenDue, streaming, sampling, METRIC_COUNT)
  }

  /** The readings of one iteration, as far as the array has room for them. */
  method Append(buf: array<Response>, len: nat, tick: Tick) returns (end: nat)
    requires len <= buf.Length
    modifies buf
    ensures end <= buf.Length
    ensures buf[..end] == old(buf[..len]) + Readings(tick)[..Min(|Readings(tick)|, buf.Length - len)]
  {
    end := len;
    ghost var r := Readings(tick);
    if tick.profile.Some? && tick.metrics > 0 {
      for m := 0 to METRIC_COUNT
        invariant end == len + m <= buf.Length && buf[..end] == old(buf[..len]) + r[..m]
      {
        if end >= buf.Length {
          break;
        }
        var p := tick.profile.value;
        var value := if m == 0 then p.q6Utilization else if m == 1 then p.q6Clock
                     else if m == 2 then p.hvxUtilization else p.hmxUtilization;
        end := Stream.Put(buf, end, Response(m, tick.now, Double(value)));
        assert r[..m + 1] == r[..m] + [r[m]];
      }
    }
  }

  /** get_dsp_npu_data, for a request whose rates were accepted; granted tells whether the response array can be allocated. */
  method CollectNpuData(granted: bool, streaming: nat, sampling: nat, start: nat, ticks: seq<Tick>, callback: bool)
      returns (batches: seq<seq<Response>>)
    requires streaming in STREAMING_RATES && sampling in SAMPLING_RATES
    ensures granted && callback ==>
      batches == Stream.Delivered(Stream.Run(Discipline(streaming, sampling), start, Samples(ticks), Times(ticks)).closed)
    ensures !granted || !callback ==> batches == []
  {
    batches := [];
    if !granted {
      return;
    }
    var c := Discipline(streaming, sampling);
    var buf := new Response[c.capacity](_ => BLANK);
    var at := Stream.Cursor(0, 0, start);
    ghost var state := Stream.Run<Response>(c, start, [], []);
    for k := 0 to |ticks|
      invariant state == Stream.Run(c, start, Samples(ticks[..k]), Times(ticks[..k]))
      invariant at.position <= buf.Length
      invariant if callback then Stream.Tracks(c, at, buf[..], batches, true, state) else batches == []
    {
      at, batches := Iterate(c, buf, at, ticks[k], callback, batches, state);
      OneMoreTick(ticks, k);
      Stream.RunSnoc(c, start, Samples(ticks[..k]), Times(ticks[..k]), Readings(ticks[k]), ticks[k].now);
      state := Stream.Step(c, state, Readings(ticks[k]), ticks[k].now);
    }
    assert ticks[..|ticks|] == ticks;
  }

  /** The body of the loop. */
  method Iterate(c: Stream.Config, buf: array<Response>, at: Stream.Cursor, tick: Tick, callback: bool,
                 batches: seq<seq<Response>>, ghost state: Stream.State<Response>)
      returns (next: Stream.Cursor, sent: seq<seq<Response>>)
    requires c.rule == Stream.CloseWhenDue && c.capacity == buf.Length && at.position <= buf.Length
    requires if callback then Stream.Tracks(c, at, buf[..], batches, true, state) else batches == []
    modifies buf
    ensures next.position <= buf.Length
    ensures if callback then Stream.Tracks(c, next, buf[..], sent, true, Stream.Step(c, state, Readings(tick), tick.now))
            else sent == []
  {
    assert buf[..][..at.position] == buf[..at.position];
    var end := Append(buf, at.position, tick);
    next, sent := Stream.FlushIfDelivered(c, buf, at, end, tick.now, callback, batches, state, Readings(tick));
  }

  lemma OneMoreTick(ticks: seq<Tick>, k: nat)
    requires k < |ticks|
    ensures Samples(ticks[..k + 1]) == Samples(ticks[..k]) + [Readings(ticks[k])]
    ensures Times(ticks[..k + 1]) == Times(ticks[..k]) + [ticks[k].now]
  {
  }

  /** Whatever queries fail, every answer is delivered or pending, whole and in order, and no window is handed over late or early. */
  lemma {:induction false} EveryAnswerArrives(streaming: nat, sampling: nat, start: nat, ticks: seq<Tick>)
    requires streaming in STREAMING_RATES && sampling in SAMPLING_RATES
    ensures var s := Stream.Run(Discipline(streaming, sampling), start, Samples(ticks), Times(ticks));
            && Flatten(Stream.Delivered(s.closed)) + Stream.Pending(s) == Flatten(Samples(ticks))
            && Flatten(s.closed) + s.window == Samples(ticks)
            && (forall i :: 0 <= i < |s.closed| ==> 1 <= |s.closed[i]| <= Stream.SamplesPerStream(streaming, sampling))
            && HandOver.OnTime(HandOver.Terms(Stream.CloseWhenDue, streaming, sampling, start), Times(ticks), s)
  {
    HandOver.RunIsInTime(HandOver.Terms(Stream.CloseWhenDue, streaming, sampling, start), METRIC_COUNT, Samples(ticks), Times(ticks));
    var c := Discipline(streaming, sampling);
    Stream.ArraysAreSpacious(c, streaming, sampling, METRIC_COUNT);
    Stream.Lossless(c, METRIC_COUNT, start, Samples(ticks), Times(ticks));
    Stream.WindowsPartitionTheRun(c, METRIC_COUNT, start, Samples(ticks), Times(ticks));
    Stream.WindowSizes(c, start, Samples(ticks), Times(ticks));
  }

  /** r is one of the four numbers of an answer, under its own id. */
  predicate IsAnswer(t: Tick, r: Response) {
    r.timestamp == t.now && t.profile.Some? && t.metrics > 0
    && ((r.id == 0 && r.value == Double(t.profile.value.q6Utilization))
        || (r.id == 1 && r.value == Double(t.profile.value.q6Clock))
        || (r.id == 2 && r.value == Double(t.profile.value.hvxUtilization))
        || (r.id == 3 && r.value == Double(t.profile.value.hmxUtilization)))
  }

  lemma ReadingsMean(t: Tick, r: Response)
    ensures r in Readings(t) <==> IsAnswer(t, r)
  {
    if t.profile.Some? && t.metrics > 0 {
      assert forall m :: 0 <= m < METRIC_COUNT ==> Readings(t)[m] == Response(m, t.now, Double(MetricOf(t.profile.value, m)));
      if IsAnswer(t, r) {
        assert Readings(t)[r.id] == r;
      }
    }
  }

  /** So what is delivered or still pending is exactly what the answers said: which number goes out under which id. */
  lemma {:induction false} ReportedIsAnswered(streaming: nat, sampling: nat, start: nat, ticks: seq<Tick>, r: Response)
    requires streaming in STREAMING_RATES && sampling in SAMPLING_RATES
    ensures var s := Stream.Run(Discipline(streaming, sampling), start, Samples(ticks), Times(ticks));
            r in Flatten(Stream.Delivered(s.closed)) + Stream.Pending(s) <==>
            exists k :: 0 <= k < |ticks| && IsAnswer(ticks[k], r)
  {
    EveryAnswerArrives(streaming, sampling, start, ticks);
    InFlatten(Samples(ticks), r);
    forall k | 0 <= k < |ticks|
      ensures r in Samples(ticks)[k] <==> IsAnswer(ticks[k], r)
    {
      ReadingsMean(ticks[k], r);
    }
  }
}
