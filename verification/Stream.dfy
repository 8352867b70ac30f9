/**
 The streaming discipline of the sampling threads, without their buffers.

 A run is a sequence of samples; a sample is the list of readings taken in one
 loop iteration. Samples are gathered into windows, and a closed window is
 handed to the data callback as one batch. The collectors keep a fixed array and
 a few counters instead; each is proved equal to this machine.
 */
module Stream {
  import opened Common

  /** What happens to a due window in which no reading was taken. */
  datatype Rule =
    | CloseWhenDue     // the counters restart although nothing is delivered
    | CloseOnDelivery  // the counters run on until something can be delivered

  /** samples: samples per stream; capacity: length of the response array. */
  datatype Config = Config(rule: Rule, samples: nat, rateNs: nat, capacity: nat) {
    ghost predicate Valid() {
      1 <= samples < UINT32_SPAN
    }
  }

  /** window: samples of the open window; closed: all earlier windows, in order. */
  datatype State<R> = State(window: seq<seq<R>>, count: nat, last: nat, closed: seq<seq<seq<R>>>)

  /** ceil(streaming / sampling), in the arithmetic of the collectors. */
  function SamplesPerStream(streaming: nat, sampling: nat): (n: nat)
    requires 0 < sampling
    ensures n * sampling >= streaming && (n == 0 || (n - 1) * sampling < streaming)
  {
    (streaming + sampling - 1) / sampling
  }

  const NS_PER_MS: nat := 1_000_000

  /** The discipline of a request over m metrics; its capacity is the length of the response array. */
  function Discipline(rule: Rule, streaming: nat, sampling: nat, m: nat): Config
    requires 0 < sampling
  {
    var n := SamplesPerStream(streaming, sampling);
    Config(rule, n, streaming * NS_PER_MS, n * m)
  }

  /** now - last for 64-bit unsigned readings of a clock that need not be monotone. */
  function Elapsed(now: nat, last: nat): int {
    if now >= last then now - last else now - last + UINT64_SPAN
  }

  /** The next value of a 32-bit unsigned counter. */
  function Increment(count: nat): nat {
    if count + 1 == UINT32_SPAN then 0 else count + 1
  }

  /** The counter holds the low 32 bits of the number of samples. */
  lemma IncrementIsModular(n: nat)
    ensures Increment(n % UINT32_SPAN) == (n + 1) % UINT32_SPAN
  {
  }

  predicate Due(c: Config, count: nat, last: nat, now: nat) {
    count >= c.samples || Elapsed(now, last) >= c.rateNs
  }

  function Pending<R>(s: State<R>): seq<R> {
    Flatten(s.window)
  }

  /** The part of a sample that still fits behind the pending readings. */
  function Kept<R>(c: Config, pending: seq<R>, sample: seq<R>): seq<R> {
    if |pending| + |sample| <= c.capacity then sample
    else if |pending| <= c.capacity then sample[..c.capacity - |pending|]
    else []
  }

  function Step<R>(c: Config, s: State<R>, sample: seq<R>, now: nat): State<R> {
    var window := s.window + [Kept(c, Pending(s), sample)];
    var count := Increment(s.count);
    if Due(c, count, s.last, now) && (c.rule == CloseWhenDue || Flatten(window) != []) then
      State([], 0, now, s.closed + [window])
    else
      State(window, count, s.last, s.closed)
  }

  function Run<R>(c: Config, start: nat, samples: seq<seq<R>>, clock: seq<nat>): State<R>
    requires |samples| == |clock|
  {
    if samples == [] then State([], 0, start, [])
    else
      var n := |samples| - 1;
      Step(c, Run(c, start, samples[..n], clock[..n]), samples[n], clock[n])
  }

  /** The batches the callback receives: closed windows that hold a reading. */
  function Delivered<R>(closed: seq<seq<seq<R>>>): seq<seq<R>> {
    if closed == [] then []
    else
      var rest, batch := Delivered(closed[..|closed| - 1]), Flatten(closed[|closed| - 1]);
      if batch == [] then rest else rest + [batch]
  }

  lemma {:induction false} DeliveredSnoc<R>(closed: seq<seq<seq<R>>>, window: seq<seq<R>>)
    ensures Delivered(closed + [window])
         == if Flatten(window) == [] then Delivered(closed) else Delivered(closed) + [Flatten(window)]
  {
    assert (closed + [window])[..|closed|] == closed;
  }

  lemma {:induction false} RunSnoc<R>(c: Config, start: nat, samples: seq<seq<R>>, clock: seq<nat>, sample: seq<R>, now: nat)
    requires |samples| == |clock|
    ensures Run(c, start, samples + [sample], clock + [now]) == Step(c, Run(c, start, samples, clock), sample, now)
  {
    assert (samples + [sample])[..|samples|] == samples;
    assert (clock + [now])[..|clock|] == clock;
  }

  /** n * m, by repeated addition: the readings of n full samples. */
  function Rows(n: nat, m: nat): nat {
    if n == 0 then 0 else Rows(n - 1, m) + m
  }

  lemma {:induction false} RowsIsProduct(n: nat, m: nat)
    ensures Rows(n, m) == n * m
  {
    if n > 0 {
      RowsIsProduct(n - 1, m);
      assert (n - 1) * m + m == n * m;
    }
  }

  lemma {:induction false} RowsGrow(a: nat, b: nat, m: nat)
    requires a < b
    ensures Rows(a, m) + m <= Rows(b, m)
  {
    if a + 1 < b {
      RowsGrow(a, b - 1, m);
    }
  }

  /** A full window of samples of at most m readings fits the response array. */
  ghost predicate Spacious(c: Config, m: nat) {
    c.Valid() && Rows(c.samples, m) <= c.capacity
  }

  ghost predicate AtMost<R>(m: nat, samples: seq<seq<R>>) {
    forall i :: 0 <= i < |samples| ==> |samples[i]| <= m
  }

  /**
   The invariant behind losslessness. An empty window may be arbitrarily old
   under CloseOnDelivery; a window that holds a reading never is.
   */
  ghost predicate Roomy<R>(c: Config, m: nat, s: State<R>) {
    && (Pending(s) == [] || (s.count < c.samples && |Pending(s)| <= Rows(s.count, m)))
    && (c.rule == CloseWhenDue ==> s.count == |s.window| < c.samples)
  }

  lemma StepKeepsRoom<R>(c: Config, m: nat, s: State<R>, sample: seq<R>, now: nat)
    requires Spacious(c, m) && Roomy(c, m, s) && |sample| <= m
    requires c.rule == CloseOnDelivery ==> s.count + 1 < UINT32_SPAN
    ensures Kept(c, Pending(s), sample) == sample
    ensures Roomy(c, m, Step(c, s, sample, now))
  {
    RowsGrow(if Pending(s) == [] then 0 else s.count, c.samples, m);
    RowsGrow(if Pending(s) == [] then 0 else s.count, s.count + 1, m);
    FlattenSnoc(s.window, sample);
  }

  /** The runs for which the counter of CloseOnDelivery cannot wrap. */
  ghost predicate NoWrap(c: Config, n: nat) {
    c.rule == CloseOnDelivery ==> n < UINT32_SPAN
  }

  lemma {:induction false} RunIsRoomy<R>(c: Config, m: nat, start: nat, samples: seq<seq<R>>, clock: seq<nat>)
    requires |samples| == |clock| && NoWrap(c, |samples|)
    requires Spacious(c, m) && AtMost(m, samples)
    ensures Roomy(c, m, Run(c, start, samples, clock))
    ensures c.rule == CloseOnDelivery ==> Run(c, start, samples, clock).count <= |samples|
  {
    if samples == [] {
    } else {
      var n := |samples| - 1;
      RunIsRoomy(c, m, start, samples[..n], clock[..n]);
      StepKeepsRoom(c, m, Run(c, start, samples[..n], clock[..n]), samples[n], clock[n]);
    }
  }

  /** Before every sample of a run there is room for m more readings. */
  lemma {:induction false} RunHasRoom<R>(c: Config, m: nat, start: nat, samples: seq<seq<R>>, clock: seq<nat>, sample: seq<R>)
    requires |samples| == |clock| && NoWrap(c, |samples|)
    requires Spacious(c, m) && AtMost(m, samples) && |sample| <= m
    ensures |Pending(Run(c, start, samples, clock))| + m <= c.capacity
    ensures Kept(c, Pending(Run(c, start, samples, clock)), sample) == sample
  {
    RunIsRoomy(c, m, start, samples, clock);
    var s := Run(c, start, samples, clock);
    RowsGrow(if Pending(s) == [] then 0 else s.count, c.samples, m);
  }

  /** The windows, closed and open, are the samples. */
  predicate Partitioned<R(==)>(s: State<R>, samples: seq<seq<R>>) {
    Flatten(s.closed) + s.window == samples
  }

  lemma StepExtendsThePartition<R>(c: Config, s: State<R>, samples: seq<seq<R>>, sample: seq<R>, now: nat)
    requires Kept(c, Pending(s), sample) == sample && Partitioned(s, samples)
    ensures Partitioned(Step(c, s, sample, now), samples + [sample])
  {
    FlattenSnoc(s.closed, s.window + [sample]);
    assert Flatten(s.closed) + (s.window + [sample]) == Flatten(s.closed) + s.window + [sample];
  }

  /** The windows, closed and open, cut the run into consecutive whole samples. */
  lemma {:induction false} WindowsPartitionTheRun<R>(c: Config, m: nat, start: nat, samples: seq<seq<R>>, clock: seq<nat>)
    requires |samples| == |clock| && NoWrap(c, |samples|)
    requires Spacious(c, m) && AtMost(m, samples)
    ensures Partitioned(Run(c, start, samples, clock), samples)
  {
    if samples == [] {
      assert Flatten<seq<R>>([]) + [] == [];
    } else {
      var n := |samples| - 1;
      WindowsPartitionTheRun(c, m, start, samples[..n], clock[..n]);
      PartitionSnoc(c, m, start, samples[..n], clock[..n], samples[n], clock[n]);
      LastAgain(samples);
      LastAgain(clock);
    }
  }

  lemma {:induction false} PartitionSnoc<R>(c: Config, m: nat, start: nat, samples: seq<seq<R>>, clock: seq<nat>, last: seq<R>, now: nat)
    requires |samples| == |clock| && NoWrap(c, |samples|) && Spacious(c, m) && AtMost(m, samples) && |last| <= m
    requires Partitioned(Run(c, start, samples, clock), samples)
    ensures Partitioned(Run(c, start, samples + [last], clock + [now]), samples + [last])
  {
    RunHasRoom(c, m, start, samples, clock, last);
    RunSnoc(c, start, samples, clock, last, now);
    StepExtendsThePartition(c, Run(c, start, samples, clock), samples, last, now);
  }

  lemma {:induction false} DeliveredHoldsEveryReading<R>(closed: seq<seq<seq<R>>>)
    ensures Flatten(Delivered(closed)) == Flatten(Flatten(closed))
    ensures forall b :: b in Delivered(closed) ==> b != []
  {
    if closed == [] {
    } else {
      var n := |closed| - 1;
      DeliveredHoldsEveryReading(closed[..n]);
      FlattenConcat(Flatten(closed[..n]), closed[n]);
      FlattenSnoc(Delivered(closed[..n]), Flatten(closed[n]));
      assert Flatten(closed) == Flatten(closed[..n]) + closed[n];
      var rest, batch := Delivered(closed[..n]), Flatten(closed[n]);
      assert Delivered(closed) == if batch == [] then rest else rest + [batch];
    }
  }

  /** Nothing is lost, duplicated or reordered between the samples and the callback. */
  lemma {:induction false} Lossless<R>(c: Config, m: nat, start: nat, samples: seq<seq<R>>, clock: seq<nat>)
    requires |samples| == |clock| && NoWrap(c, |samples|)
    requires Spacious(c, m) && AtMost(m, samples)
    ensures var s := Run(c, start, samples, clock);
            Flatten(Delivered(s.closed)) + Pending(s) == Flatten(samples)
  {
    var s := Run(c, start, samples, clock);
    WindowsPartitionTheRun(c, m, start, samples, clock);
    DeliveredHoldsEveryReading(s.closed);
    FlattenConcat(Flatten(s.closed), s.window);
  }

  /** What the callback has received, and what waits to be sent. */
  function Reported<R>(s: State<R>): seq<R> {
    Flatten(Delivered(s.closed)) + Pending(s)
  }

  lemma StepReports<R>(c: Config, s: State<R>, sample: seq<R>, now: nat)
    ensures Reported(Step(c, s, sample, now)) == Reported(s) + Kept(c, Pending(s), sample)
  {
    var kept, sent, t := Kept(c, Pending(s), sample), Flatten(Delivered(s.closed)), Step(c, s, sample, now);
    FlattenSnoc(s.window, kept);
    assert Reported(t) == sent + Flatten(s.window + [kept]) by {
      ClosingReports(s.closed, s.window + [kept], t);
    }
    assert sent + (Pending(s) + kept) == sent + Pending(s) + kept;
  }

  /** A window reports the same readings whether it stays open or is closed. */
  lemma {:induction false} ClosingReports<R>(closed: seq<seq<seq<R>>>, window: seq<seq<R>>, t: State<R>)
    requires (t.window == window && t.closed == closed) || (t.window == [] && t.closed == closed + [window])
    ensures Reported(t) == Flatten(Delivered(closed)) + Flatten(window)
  {
    if t.closed != closed {
      var sent, batch := Delivered(closed), Flatten(window);
      DeliveredSnoc(closed, window);
      FlattenSnoc(sent, batch);
      assert Pending(t) == [];
    }
  }

  /** Whenever a sample is taken, it still fits behind the pending readings. */
  ghost predicate Fitted<R>(c: Config, start: nat, samples: seq<seq<R>>, clock: seq<nat>)
    requires |samples| == |clock|
  {
    forall k :: 0 <= k < |samples| ==> FitsAt(c, start, samples, clock, k)
  }

  predicate FitsAt<R>(c: Config, start: nat, samples: seq<seq<R>>, clock: seq<nat>, k: nat)
    requires k < |samples| == |clock|
  {
    |Pending(Run(c, start, samples[..k], clock[..k]))| + |samples[k]| <= c.capacity
  }

  lemma FittedSnoc<R>(c: Config, start: nat, samples: seq<seq<R>>, clock: seq<nat>)
    requires |samples| == |clock| && samples != []
    ensures var n := |samples| - 1;
            Fitted(c, start, samples, clock) <==>
            Fitted(c, start, samples[..n], clock[..n]) && FitsAt(c, start, samples, clock, n)
  {
    var n := |samples| - 1;
    forall k: nat | k < n
      ensures FitsAt(c, start, samples[..n], clock[..n], k) == FitsAt(c, start, samples, clock, k)
    {
      assert samples[..n][..k] == samples[..k] && clock[..n][..k] == clock[..k];
    }
  }

  /** For samples of any size and without any bound on the run: every reading is reported if and only if no sample met a full array. */
  lemma {:induction false} LosslessIffFitted<R>(c: Config, start: nat, samples: seq<seq<R>>, clock: seq<nat>)
    requires |samples| == |clock|
    ensures |Reported(Run(c, start, samples, clock))| <= |Flatten(samples)|
    ensures Reported(Run(c, start, samples, clock)) == Flatten(samples) <==> Fitted(c, start, samples, clock)
  {
    if samples != [] {
      var n := |samples| - 1;
      var s, all := Run(c, start, samples[..n], clock[..n]), Flatten(samples[..n]);
      LosslessIffFitted(c, start, samples[..n], clock[..n]);
      BatchesFit(c, start, samples[..n], clock[..n]);
      StepReports(c, s, samples[n], clock[n]);
      FittedSnoc(c, start, samples, clock);
      EqualSums(Reported(s), Kept(c, Pending(s), samples[n]), all, samples[n]);
    }
  }

  lemma EqualSums<T>(a: seq<T>, b: seq<T>, c: seq<T>, d: seq<T>)
    requires |a| <= |c| && |b| <= |d|
    ensures a + b == c + d <==> a == c && b == d
  {
    if a + b == c + d {
      assert |a| == |c| && |b| == |d|;
      assert a == (a + b)[..|a|] && c == (c + d)[..|a|];
      assert b == (a + b)[|a|..] && d == (c + d)[|a|..];
    }
  }

  /** Under CloseWhenDue a batch is made of 1 to samples-per-stream whole samples. */
  lemma {:induction false} WindowSizes<R>(c: Config, start: nat, samples: seq<seq<R>>, clock: seq<nat>)
    requires |samples| == |clock| && c.Valid() && c.rule == CloseWhenDue
    ensures var s := Run(c, start, samples, clock);
            s.count == |s.window| < c.samples
            && forall i :: 0 <= i < |s.closed| ==> 1 <= |s.closed[i]| <= c.samples
  {
    if samples == [] {
    } else {
      var n := |samples| - 1;
      WindowSizes(c, start, samples[..n], clock[..n]);
      StepSizes(c, Run(c, start, samples[..n], clock[..n]), samples[n], clock[n]);
    }
  }

  lemma StepSizes<R>(c: Config, s: State<R>, sample: seq<R>, now: nat)
    requires c.Valid() && c.rule == CloseWhenDue && s.count == |s.window| < c.samples
    requires forall i :: 0 <= i < |s.closed| ==> 1 <= |s.closed[i]| <= c.samples
    ensures var t := Step(c, s, sample, now);
            t.count == |t.window| < c.samples
            && forall i :: 0 <= i < |t.closed| ==> 1 <= |t.closed[i]| <= c.samples
  {
  }

  /** Under either rule a batch holds at most a full array and at least one reading. */
  lemma {:induction false} BatchesFit<R>(c: Config, start: nat, samples: seq<seq<R>>, clock: seq<nat>)
    requires |samples| == |clock|
    ensures var s := Run(c, start, samples, clock);
            |Pending(s)| <= c.capacity
            && forall b :: b in Delivered(s.closed) ==> 1 <= |b| <= c.capacity
  {
    if samples == [] {
    } else {
      var n := |samples| - 1;
      BatchesFit(c, start, samples[..n], clock[..n]);
      var s := Run(c, start, samples[..n], clock[..n]);
      var window := s.window + [Kept(c, Pending(s), samples[n])];
      FlattenSnoc(s.window, Kept(c, Pending(s), samples[n]));
      DeliveredSnoc(s.closed, window);
    }
  }

  /** No reading waits: what is still pending after a sample was not yet due. */
  lemma {:induction false} PendingIsNotDue<R>(c: Config, start: nat, samples: seq<seq<R>>, clock: seq<nat>)
    requires |samples| == |clock| && samples != []
    ensures var s := Run(c, start, samples, clock);
            Pending(s) == []
            || (s.count < c.samples && Elapsed(clock[|clock| - 1], s.last) < c.rateNs)
  {
    var n := |samples| - 1;
    var s := Run(c, start, samples[..n], clock[..n]);
    assert Run(c, start, samples, clock) == Step(c, s, samples[n], clock[n]);
  }

  /** The response arrays are allocated with exactly the room a full window needs. */
  lemma ArraysAreSpacious(c: Config, streaming: nat, sampling: nat, m: nat)
    requires 0 < sampling && 0 < streaming < 0x1_0000   // rates are 16-bit and at least 1 ms
    requires c.samples == SamplesPerStream(streaming, sampling) && c.capacity == c.samples * m
    ensures Spacious(c, m)
  {
    RowsIsProduct(c.samples, m);
    WindowsAreShort(c.samples, streaming, sampling);
  }

  lemma WindowsAreShort(n: nat, streaming: nat, sampling: nat)
    requires 0 < sampling && 0 < streaming
    requires n * sampling >= streaming && (n == 0 || (n - 1) * sampling < streaming)
    ensures 1 <= n <= streaming
  {
    if n > 0 {
      MultiplesGrow(n - 1, sampling);
    }
  }

  lemma MultiplesGrow(a: nat, b: nat)
    requires 0 < b
    ensures a <= a * b
  {
    assert a * (b - 1) >= 0;
  }

  // ----- What a collector has to do after each sample

  /** One step, in terms of what a collector stores: the pending readings, the counter and the time. */
  lemma StepOnPending<R>(c: Config, s: State<R>, sample: seq<R>, now: nat)
    ensures var t := Step(c, s, sample, now);
            var all := Pending(s) + Kept(c, Pending(s), sample);
            var closes := Due(c, Increment(s.count), s.last, now) && (c.rule == CloseWhenDue || all != []);
            Pending(t) == (if closes then [] else all)
            && t.count == (if closes then 0 else Increment(s.count))
            && t.last == (if closes then now else s.last)
            && Delivered(t.closed) == if closes && all != [] then Delivered(s.closed) + [all] else Delivered(s.closed)
  {
    var window := s.window + [Kept(c, Pending(s), sample)];
    FlattenSnoc(s.window, Kept(c, Pending(s), sample));
    DeliveredSnoc(s.closed, window);
  }

  /** The variables of a collector, which stand for a state of the machine. */
  datatype Cursor = Cursor(position: nat, count: nat, last: nat)

  ghost predicate Tracks<R>(c: Config, at: Cursor, content: seq<R>, batches: seq<seq<R>>, callback: bool, s: State<R>) {
    && at.position <= |content| <= c.capacity && content[..at.position] == Pending(s)
    && at.count == s.count && at.last == s.last
    && batches == if callback then Delivered(s.closed) else []
  }

  /** One more reading behind the pending ones. */
  method Put<R>(buf: array<R>, position: nat, r: R) returns (end: nat)
    requires position < buf.Length
    modifies buf
    ensures end == position + 1 && buf[..end] == old(buf[..position]) + [r]
  {
    buf[position] := r;
    end := position + 1;
  }

  /**
   The end of an iteration in the thermal and CPU backends: a due window is
   handed to the callback, if there is one and anything is pending, and the
   counters restart in any case.
   */
  method FlushWhenDue<R>(c: Config, buf: array<R>, at: Cursor, end: nat, now: nat, callback: bool, batches: seq<seq<R>>,
                         ghost s: State<R>, ghost sample: seq<R>) returns (next: Cursor, sent: seq<seq<R>>)
    requires c.rule == CloseWhenDue && end <= buf.Length <= c.capacity
    requires buf[..end] == Pending(s) + Kept(c, Pending(s), sample)
    requires at.count == s.count && at.last == s.last
    requires batches == if callback then Delivered(s.closed) else []
    ensures Tracks(c, next, buf[..], sent, callback, Step(c, s, sample, now))
  {
    StepOnPending(c, s, sample, now);
    next, sent := Cursor(end, Increment(at.count), at.last), batches;
    if next.count >= c.samples || Elapsed(now, next.last) >= c.rateNs {
      if callback && end > 0 {
        sent := sent + [buf[..end]];
      }
      next := Cursor(0, 0, now);
    }
    assert buf[..][..next.position] == buf[..next.position];
  }

  /**
   The end of an iteration in the NPU and dummy backends: without a callback a due
   window restarts the counters but keeps the pending readings.
   */
  method FlushIfDelivered<R>(c: Config, buf: array<R>, at: Cursor, end: nat, now: nat, callback: bool, batches: seq<seq<R>>,
                             ghost s: State<R>, ghost sample: seq<R>) returns (next: Cursor, sent: seq<seq<R>>)
    requires c.rule == CloseWhenDue && end <= buf.Length <= c.capacity
    requires callback ==> buf[..end] == Pending(s) + Kept(c, Pending(s), sample)
    requires callback ==> at.count == s.count && at.last == s.last && batches == Delivered(s.closed)
    ensures callback ==> Tracks(c, next, buf[..], sent, true, Step(c, s, sample, now))
    ensures !callback ==> sent == batches && next.position == end
  {
    StepOnPending(c, s, sample, now);
    next, sent := Cursor(end, Increment(at.count), at.last), batches;
    if next.count >= c.samples || Elapsed(now, next.last) >= c.rateNs {
      if callback && end > 0 {
        sent := sent + [buf[..end]];
        next := next.(position := 0);
      }
      next := next.(count := 0, last := now);
    }
    assert buf[..][..next.position] == buf[..next.position];
  }
}
