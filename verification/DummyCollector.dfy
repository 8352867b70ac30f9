/**
 The loop of the dummy backend's thread. The type of a metric is its index modulo
 5; string metrics need a string buffer, which every fifth slot of the response
 array owns. The two agree only because every sample starts at a multiple of 5.
 */
module DummyCollector {
  import opened Common
  import opened Responses
  import HandOver
  import Stream

  const TYPE_COUNT: nat := 5     // METRIC_TYPE_LEN
  const STRING_TYPE: nat := 4    // METRIC_TYPE_STRING_INDEX
  const STREAMING_RATES: seq<nat> := [100, 200, 300, 400, 500, 600, 700, 800, 900, 1000,
                                      1100, 1200, 1300, 1400, 1500, 1600, 1700, 1800, 1900, 2000]
  const SAMPLING_RATES: seq<nat> := [1, 10, 50, 100, 200, 500, 1000]

  /** The metric counts of the two capabilities. */
  const METRIC_COUNTS: seq<nat> := [5, 10]

  /** uint64_counter, int64_counter, double_counter and string_counter. */
  datatype Counters = Counters(u: nat, i: nat, x: real, s: nat)

  // ----- What the thread produces

  /** round(x * 1000) / 1000 */
  function Rounded(x: real): real {
    (x * 1000.0 + 0.5).Floor as real / 1000.0
  }

  /** The value of the r-th row of five metrics, counted over the whole run from 1. */
  function RowValue(kind: nat, r: nat): Value {
    match kind
    case 0 => Bool(true)
    case 1 => Uint64(r)
    case 2 => Int64(r)
    case 3 => Double(Rounded(r as real / 10.0))
    case _ => Text(r)
  }

  /** A sample of m metrics after r rows: every type counts its own metrics. */
  function SampleFrom(m: nat, r: nat, now: nat): (s: seq<Response>)
    ensures |s| == m
  {
    seq(m, i requires 0 <= i < m => Response(i, now, RowValue(i % TYPE_COUNT, r + i / TYPE_COUNT + 1)))
  }

  /** Sample k of a run. */
  function SampleAt(m: nat, k: nat, now: nat): (s: seq<Response>)
    ensures |s| == m
  {
    SampleFrom(m, Stream.Rows(k, m / TYPE_COUNT), now)
  }

  function Samples(m: nat, clock: seq<nat>): (s: seq<seq<Response>>)
    ensures |s| == |clock| && Stream.AtMost(m, s)
  {
    seq(|clock|, k requires 0 <= k < |clock| => SampleAt(m, k, clock[k]))
  }

  function Discipline(streaming: nat, sampling: nat, m: nat): Stream.Config
    requires 0 < sampling
  {
    Stream.Discipline(Stream.CloseWhenDue, streaming, sampling, m)
  }

  // ----- Layout of the response array

  predicate IsStringSlot(i: nat) {
    i % TYPE_COUNT == STRING_TYPE
  }

  predicate IsString(v: Value) {
    v.Text? || v.NoText?
  }

  /** The slots that own a string buffer are every fifth one. */
  ghost predicate Buffered(strings: seq<bool>) {
    forall i :: 0 <= i < |strings| ==> (strings[i] <==> IsStringSlot(i))
  }

  /** String responses stand on every fifth place, and have a text; no other response does. */
  ghost predicate WellPlaced(responses: seq<Response>) {
    forall i :: 0 <= i < |responses| ==> (responses[i].value.Text? <==> IsStringSlot(i)) && !responses[i].value.NoText?
  }

  lemma {:induction false} RowsOfFive(n: nat, m: nat)
    requires m in METRIC_COUNTS
    ensures Stream.Rows(n, m) % TYPE_COUNT == 0
  {
    if n > 0 {
      RowsOfFive(n - 1, m);
    }
  }

  /** One sample, written behind len pending readings. */
  method Fill(m: nat, buf: array<Response>, strings: array<bool>, len: nat, c: Counters, now: nat, ghost r: nat)
      returns (end: nat, next: Counters)
    requires m in METRIC_COUNTS && len % TYPE_COUNT == 0 && len + m <= buf.Length == strings.Length
    requires Buffered(strings[..]) && Counting(c, r)
    modifies buf
    ensures end == len + m && buf[..end] == old(buf[..len]) + SampleFrom(m, r, now)
    ensures Counting(next, r + m / TYPE_COUNT)
  {
    end, next := len, c;
    ghost var sample := SampleFrom(m, r, now);
    for i := 0 to m
      invariant end == len + i && buf[..end] == old(buf[..len]) + sample[..i]
      invariant CountingWithin(next, r + i / TYPE_COUNT, i % TYPE_COUNT)
    {
      if end >= buf.Length {
        assert false;
      }
      assert strings[..][end] <==> IsStringSlot(i);
      var value;
      value, next := Produce(i % TYPE_COUNT, strings[end], next, r + i / TYPE_COUNT);
      end := Stream.Put(buf, end, Response(i, now, value));
      assert sample[..i + 1] == sample[..i] + [sample[i]];
    }
    assert sample[..m] == sample;
  }

  /** The value of one metric; owned tells whether its slot has a string buffer. */
  method Produce(kind: nat, owned: bool, c: Counters, ghost r: nat) returns (value: Value, next: Counters)
    requires kind < TYPE_COUNT && CountingWithin(c, r, kind)
    requires owned <==> kind == STRING_TYPE
    ensures value == RowValue(kind, r + 1)
    ensures if kind == STRING_TYPE then CountingWithin(next, r + 1, 0) else CountingWithin(next, r, kind + 1)
  {
    next := c;
    if kind == 0 {
      value := Bool(true);
    } else if kind == 1 {
      value := Uint64(c.u);
      next := c.(u := c.u + 1);
    } else if kind == 2 {
      value := Int64(c.i);
      next := c.(i := c.i + 1);
    } else if kind == 3 {
      value := Double(Rounded(c.x));
      next := c.(x := c.x + 0.1);
    } else {
      value := if owned then Text(c.s) else NoText;
      next := c.(s := c.s + 1);
    }
  }

  /** Every counter stands at row r + 1. */
  ghost predicate Counting(c: Counters, r: nat) {
    c.u == r + 1 && c.i == r + 1 && c.x == (r + 1) as real / 10.0 && c.s == r + 1
  }

  /** Row r + 1 has been produced up to, not including, type t. */
  ghost predicate CountingWithin(c: Counters, r: nat, t: nat) {
    c.u == r + (if t > 1 then 2 else 1) && c.i == r + (if t > 2 then 2 else 1)
    && c.x == (r + if t > 3 then 2 else 1) as real / 10.0 && c.s == r + 1
  }

  // ----- The thread

  /** A string buffer for every fifth slot; on the first refusal the thread will not run. */
  method AllocateStrings(memory: bool, strings: array<bool>) returns (complete: bool, ghost live: set<nat>)
    requires forall i :: 0 <= i < strings.Length ==> !strings[i]
    modifies strings
    ensures complete ==> Buffered(strings[..])
    ensures memory ==> complete
    ensures Owns(strings[..], live)
  {
    complete, live := true, {};
    for i := 0 to strings.Length
      invariant complete && (forall j :: 0 <= j < i ==> (strings[j] <==> IsStringSlot(j)))
      invariant forall j :: i <= j < strings.Length ==> !strings[j]
      invariant Owns(strings[..], live)
    {
      if IsStringSlot(i) {
        var granted: bool := *;
        if !memory && !granted {
          complete := false;
          break;
        }
        strings[i] := true;
        live := live + {i};
      }
    }
  }

  /** The buffers that are live are exactly the ones some slot holds. */
  ghost predicate Owns(strings: seq<bool>, live: set<nat>) {
    forall i: nat :: i in live <==> i < |strings| && strings[i]
  }

  method FreeStrings(strings: array<bool>, ghost live: set<nat>) returns (ghost left: set<nat>)
    requires Owns(strings[..], live)
    modifies strings
    ensures left == {}
  {
    left := live;
    for i := 0 to strings.Length
      invariant Owns(strings[..], left) && forall j :: 0 <= j < i ==> !strings[j]
    {
      if strings[i] {
        assert i in left;
        left := left - {i};
        strings[i] := false;
      }
    }
  }

  /**
   get_dummy_data, for a request whose rates were accepted and with the callback
   that start insists on. ran is false only if an allocation is refused, which does not
   happen with memory; left are the string buffers that are still allocated at the end.
   */
  method CollectDummyData(memory: bool, m: nat, streaming: nat, sampling: nat, start: nat, clock: seq<nat>)
      returns (ran: bool, batches: seq<seq<Response>>, ghost left: set<nat>)
    requires m in METRIC_COUNTS && streaming in STREAMING_RATES && sampling in SAMPLING_RATES
    ensures memory ==> ran
    ensures ran ==>
      batches == Stream.Delivered(Stream.Run(Discipline(streaming, sampling, m), start, Samples(m, clock), clock).closed)
    ensures !ran ==> batches == []
    ensures left == {}
  {
    ran, batches, left := memory, [], {};
    if !ran {
      ran := *;
      if !ran {
        return;
      }
    }
    var c := Discipline(streaming, sampling, m);
    var buf := new Response[c.capacity](_ => BLANK);
    var strings := new bool[c.capacity](_ => false);
    Stream.ArraysAreSpacious(c, streaming, sampling, m);
    ran, left := AllocateStrings(memory, strings);
    if ran {
      batches := Loop(m, c, start, clock, buf, strings);
    }
    left := FreeStrings(strings, left);
  }

  method Loop(m: nat, c: Stream.Config, start: nat, clock: seq<nat>, buf: array<Response>, strings: array<bool>)
      returns (batches: seq<seq<Response>>)
    requires m in METRIC_COUNTS && c.rule == Stream.CloseWhenDue && Stream.Spacious(c, m)
    requires buf.Length == c.capacity == strings.Length && Buffered(strings[..])
    modifies buf
    ensures batches == Stream.Delivered(Stream.Run(c, start, Samples(m, clock), clock).closed)
  {
    batches := [];
    var at, counters := Stream.Cursor(0, 0, start), Counters(1, 1, 0.1, 1);
    ghost var state := Stream.Run<Response>(c, start, [], []);
    for k := 0 to |clock|
      invariant state == Stream.Run(c, start, Samples(m, clock[..k]), clock[..k])
      invariant Stream.Tracks(c, at, buf[..], batches, true, state)
      invariant Counting(counters, Stream.Rows(k, m / TYPE_COUNT))
    {
      ghost var sample := SampleAt(m, k, clock[k]);
      Stream.RunHasRoom(c, m, start, Samples(m, clock[..k]), clock[..k], sample);
      PendingIsWholeSamples(m, c, start, clock[..k]);
      assert buf[..][..at.position] == buf[..at.position];
      var end;
      end, counters := Fill(m, buf, strings, at.position, counters, clock[k], Stream.Rows(k, m / TYPE_COUNT));
      at, batches := Stream.FlushIfDelivered(c, buf, at, end, clock[k], true, batches, state, sample);
      OneMoreSample(m, clock, k);
      Stream.RunSnoc(c, start, Samples(m, clock[..k]), clock[..k], sample, clock[k]);
      state := Stream.Step(c, state, sample, clock[k]);
    }
    assert clock[..|clock|] == clock;
  }

  lemma OneMoreSample(m: nat, clock: seq<nat>, k: nat)
    requires k < |clock|
    ensures Samples(m, clock[..k + 1]) == Samples(m, clock[..k]) + [SampleAt(m, k, clock[k])]
    ensures clock[..k + 1] == clock[..k] + [clock[k]]
  {
  }

  // ----- Every batch starts a sample at its first slot

  lemma Concatenated(a: seq<Response>, b: seq<Response>)
    requires WellPlaced(a) && WellPlaced(b) && |a| % TYPE_COUNT == 0
    ensures WellPlaced(a + b)
  {
    forall i | 0 <= i < |a + b|
      ensures ((a + b)[i].value.Text? <==> IsStringSlot(i)) && !(a + b)[i].value.NoText?
    {
      if i >= |a| {
        assert (a + b)[i] == b[i - |a|];
      }
    }
  }

  /** Windows of whole samples are well placed, and end at a multiple of five. */
  lemma {:induction false} WindowIsWellPlaced(m: nat, window: seq<seq<Response>>)
    requires m in METRIC_COUNTS
    requires forall i :: 0 <= i < |window| ==> |window[i]| == m && WellPlaced(window[i])
    ensures WellPlaced(Flatten(window)) && |Flatten(window)| == Stream.Rows(|window|, m)
    ensures |Flatten(window)| % TYPE_COUNT == 0
  {
    RowsOfFive(|window|, m);
    if window != [] {
      var n := |window| - 1;
      WindowIsWellPlaced(m, window[..n]);
      Concatenated(Flatten(window[..n]), window[n]);
    }
  }

  lemma SamplesAreWellPlaced(m: nat, clock: seq<nat>)
    requires m in METRIC_COUNTS
    ensures forall k :: 0 <= k < |clock| ==> |Samples(m, clock)[k]| == m && WellPlaced(Samples(m, clock)[k])
  {
  }

  /** The fill position at the start of every iteration is a multiple of five. */
  lemma {:induction false} PendingIsWholeSamples(m: nat, c: Stream.Config, start: nat, clock: seq<nat>)
    requires m in METRIC_COUNTS && c.rule == Stream.CloseWhenDue && Stream.Spacious(c, m)
    ensures var s := Stream.Run(c, start, Samples(m, clock), clock);
            WellPlaced(Stream.Pending(s)) && |Stream.Pending(s)| % TYPE_COUNT == 0
  {
    var s := Stream.Run(c, start, Samples(m, clock), clock);
    Stream.WindowsPartitionTheRun(c, m, start, Samples(m, clock), clock);
    SamplesAreWellPlaced(m, clock);
    var n := |Flatten(s.closed)|;
    assert forall i :: 0 <= i < |s.window| ==> s.window[i] == Samples(m, clock)[n + i];
    WindowIsWellPlaced(m, s.window);
  }

  /** In every batch of every run, the string responses are those on slots that own a buffer, and all have their text. */
  lemma {:induction false} BatchesAreWellPlaced(m: nat, windows: seq<seq<seq<Response>>>)
    requires m in METRIC_COUNTS
    requires forall j, i :: 0 <= j < |windows| && 0 <= i < |windows[j]| ==> |windows[j][i]| == m && WellPlaced(windows[j][i])
    ensures forall b :: b in Stream.Delivered(windows) ==> WellPlaced(b)
  {
    if windows != [] {
      var n := |windows| - 1;
      BatchesAreWellPlaced(m, windows[..n]);
      WindowIsWellPlaced(m, windows[n]);
    }
  }

  /** So in every run; and no batch is late or early. */
  lemma {:induction false} EveryBatchIsWellPlaced(m: nat, streaming: nat, sampling: nat, start: nat, clock: seq<nat>)
    requires m in METRIC_COUNTS && streaming in STREAMING_RATES && sampling in SAMPLING_RATES
    ensures var s := Stream.Run(Discipline(streaming, sampling, m), start, Samples(m, clock), clock);
            && (forall b :: b in Stream.Delivered(s.closed) ==> WellPlaced(b))
            && Flatten(Stream.Delivered(s.closed)) + Stream.Pending(s) == Flatten(Samples(m, clock))
            && HandOver.OnTime(HandOver.Terms(Stream.CloseWhenDue, streaming, sampling, start), clock, s)
  {
    HandOver.RunIsInTime(HandOver.Terms(Stream.CloseWhenDue, streaming, sampling, start), m, Samples(m, clock), clock);
    var c := Discipline(streaming, sampling, m);
    var all := Samples(m, clock);
    var s := Stream.Run(c, start, all, clock);
    Stream.ArraysAreSpacious(c, streaming, sampling, m);
    Stream.Lossless(c, m, start, all, clock);
    Stream.WindowsPartitionTheRun(c, m, start, all, clock);
    SamplesAreWellPlaced(m, clock);
    forall j, i | 0 <= j < |s.closed| && 0 <= i < |s.closed[j]|
      ensures |s.closed[j][i]| == m && WellPlaced(s.closed[j][i])
    {
      InFlatten(s.closed, s.closed[j][i]);
      assert s.closed[j][i] in all;
    }
    BatchesAreWellPlaced(m, s.closed);
  }

  // ----- The values of a run

  lemma {:induction false} PlaceInFlatten<T>(parts: seq<seq<T>>, m: nat, k: nat, i: nat)
    requires k < |parts| && i < m && forall j :: 0 <= j < |parts| ==> |parts[j]| == m
    ensures |Flatten(parts)| == Stream.Rows(|parts|, m) && Stream.Rows(k, m) + i < Stream.Rows(|parts|, m)
    ensures Flatten(parts)[Stream.Rows(k, m) + i] == parts[k][i]
  {
    var n := |parts| - 1;
    LengthOfFlatten(parts, m);
    LengthOfFlatten(parts[..n], m);
    if k < n {
      PlaceInFlatten(parts[..n], m, k, i);
    }
  }

  lemma {:induction false} LengthOfFlatten<T>(parts: seq<seq<T>>, m: nat)
    requires forall j :: 0 <= j < |parts| ==> |parts[j]| == m
    ensures |Flatten(parts)| == Stream.Rows(|parts|, m)
  {
    if parts != [] {
      LengthOfFlatten(parts[..|parts| - 1], m);
    }
  }

  /** A tenth of a whole number is not changed by rounding to thousandths. */
  lemma TenthsAreRound(r: nat)
    ensures Rounded(r as real / 10.0) == r as real / 10.0
  {
    var x := r as real / 10.0 * 1000.0 + 0.5;
    assert x == (100 * r) as real + 0.5;
    assert x.Floor == 100 * r;
  }

  /**
   All readings of a run, by their place: metric i of sample k is the next value of its
   own type's counter, which counts the metrics of that type over the whole run from 1.
   */
  lemma EveryMetricCounts(m: nat, clock: seq<nat>, k: nat, i: nat)
    requires m in METRIC_COUNTS && k < |clock| && i < m
    ensures k * m + i < |Flatten(Samples(m, clock))|
    ensures var row := k * (m / 5) + i / 5 + 1;
            Flatten(Samples(m, clock))[k * m + i] == Response(i, clock[k],
              if i % 5 == 0 then Bool(true) else if i % 5 == 1 then Uint64(row) else if i % 5 == 2 then Int64(row)
              else if i % 5 == 3 then Double(row as real / 10.0) else Text(row))
  {
    Stream.RowsIsProduct(k, m);
    Stream.RowsIsProduct(k, m / TYPE_COUNT);
    PlaceInFlatten(Samples(m, clock), m, k, i);
    TenthsAreRound(Stream.Rows(k, m / TYPE_COUNT) + i / TYPE_COUNT + 1);
  }
}
