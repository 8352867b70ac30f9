/**
 When windows are handed over, in terms of the request and the clock alone: a window
 is closed by the first of its samples with which the streaming interval is covered,
 by the number of samples or by the time that has passed, and by no earlier one.
 */
module HandOver {
  import opened Common
  import opened Stream

  /** What a session was asked for, and when it started; the rates are in milliseconds, the clock in nanoseconds. */
  datatype Terms = Terms(rule: Rule, streaming: nat, sampling: nat, start: nat)

  /** ms milliseconds or more have passed from last to now, by 64-bit unsigned readings. */
  predicate Passed(last: nat, now: nat, ms: nat) {
    (if last <= now then now - last else now - last + 0x1_0000_0000_0000_0000) >= ms * 1_000_000
  }

  /**
   A window of the samples taken since last covers the interval at now. The number of
   samples is counted in 32 bits; under CloseOnDelivery an empty window is never due.
   */
  predicate IsCovered<R(==)>(terms: Terms, last: nat, window: seq<seq<R>>, now: nat) {
    && (|window| % 0x1_0000_0000 * terms.sampling >= terms.streaming || Passed(last, now, terms.streaming))
    && (terms.rule == CloseWhenDue || exists k :: 0 <= k < |window| && window[k] != [])
  }

  /** The time of the last hand-over before sample b. */
  function TimeBefore(start: nat, clock: seq<nat>, b: nat): nat
    requires b <= |clock|
  {
    if b == 0 then start else clock[b - 1]
  }

  /** The window that begins with sample b covers the interval with its first k samples. */
  ghost predicate CoveredWith<R>(terms: Terms, clock: seq<nat>, b: nat, window: seq<seq<R>>, k: nat)
    requires 1 <= k <= |window| && b + |window| <= |clock|
  {
    IsCovered(terms, TimeBefore(terms.start, clock, b), window[..k], clock[b + k - 1])
  }

  /** No sample before the last covers the interval; covered tells whether the last one does. */
  ghost predicate Follows<R>(terms: Terms, clock: seq<nat>, b: nat, window: seq<seq<R>>, covered: bool) {
    && b + |window| <= |clock|
    && forall k :: 1 <= k <= |window| ==> CoveredWith(terms, clock, b, window, k) == (covered && k == |window|)
  }

  /** The number of samples in the first i windows. */
  function Before<R>(closed: seq<seq<seq<R>>>, i: nat): nat
    requires i <= |closed|
  {
    if i == 0 then 0 else Before(closed, i - 1) + |closed[i - 1]|
  }

  /** Closed window i was handed over with the first of its samples that covered the interval. */
  ghost predicate ClosedOnTime<R>(terms: Terms, clock: seq<nat>, closed: seq<seq<seq<R>>>, i: nat)
    requires i < |closed|
  {
    closed[i] != [] && Follows(terms, clock, Before(closed, i), closed[i], true)
  }

  /** All closed windows were, and the open one, which has the rest of the samples, does not cover the interval. */
  ghost predicate OnTime<R>(terms: Terms, clock: seq<nat>, s: State<R>) {
    && (forall i :: 0 <= i < |s.closed| ==> ClosedOnTime(terms, clock, s.closed, i))
    && Before(s.closed, |s.closed|) + |s.window| == |clock|
    && Follows(terms, clock, Before(s.closed, |s.closed|), s.window, false)
  }

  // ----- The machine is on time

  lemma {:induction false} NothingInside<R>(window: seq<seq<R>>)
    ensures Flatten(window) != [] <==> exists k :: 0 <= k < |window| && window[k] != []
  {
    if window != [] {
      var n := |window| - 1;
      NothingInside(window[..n]);
      assert Flatten(window) == Flatten(window[..n]) + window[n];
      if Flatten(window[..n]) != [] {
        var k :| 0 <= k < n && window[..n][k] != [];
        assert window[k] != [];
      } else {
        assert forall k :: 0 <= k < n ==> window[..n][k] == window[k];
      }
    }
  }

  /** The quotient is exactly the count that covers the streaming interval. */
  lemma EnoughSamples(streaming: nat, sampling: nat, count: nat)
    requires 0 < sampling
    ensures count * sampling >= streaming <==> count >= SamplesPerStream(streaming, sampling)
  {
    var n := SamplesPerStream(streaming, sampling);
    if count >= n {
      Scaled(n, count, sampling);
    } else {
      Scaled(count, n - 1, sampling);
    }
  }

  lemma Scaled(a: nat, b: nat, m: nat)
    requires a <= b
    ensures a * m <= b * m
  {
    assert (b - a) * m >= 0;
  }

  function DisciplineOf(terms: Terms, m: nat): Config
    requires 0 < terms.sampling
  {
    Discipline(terms.rule, terms.streaming, terms.sampling, m)
  }

  lemma {:induction false} CoveredIsDue<R>(terms: Terms, m: nat, last: nat, window: seq<seq<R>>, now: nat)
    requires 0 < terms.sampling
    ensures IsCovered(terms, last, window, now) <==>
            Due(DisciplineOf(terms, m), |window| % UINT32_SPAN, last, now) && (terms.rule == CloseWhenDue || Flatten(window) != [])
  {
    EnoughSamples(terms.streaming, terms.sampling, |window| % UINT32_SPAN);
    NothingInside(window);
  }

  lemma {:induction false} BeforeSnoc<R>(closed: seq<seq<seq<R>>>, window: seq<seq<R>>, i: nat)
    requires i <= |closed|
    ensures Before(closed + [window], i) == Before(closed, i)
  {
    if i > 0 {
      BeforeSnoc(closed, window, i - 1);
    }
  }

  lemma FollowsLonger<R>(terms: Terms, clock: seq<nat>, now: nat, b: nat, window: seq<seq<R>>, covered: bool)
    requires Follows(terms, clock, b, window, covered)
    ensures Follows(terms, clock + [now], b, window, covered)
  {
    forall k | 1 <= k <= |window|
      ensures CoveredWith(terms, clock + [now], b, window, k) == CoveredWith(terms, clock, b, window, k)
    {
    }
  }

  lemma FollowsSnoc<R>(terms: Terms, clock: seq<nat>, now: nat, b: nat, window: seq<seq<R>>, sample: seq<R>)
    requires Follows(terms, clock, b, window, false) && b + |window| == |clock|
    ensures Follows(terms, clock + [now], b, window + [sample],
                    IsCovered(terms, TimeBefore(terms.start, clock, b), window + [sample], now))
  {
    var all := window + [sample];
    assert all[..|all|] == all;
    forall k | 1 <= k <= |window|
      ensures CoveredWith(terms, clock + [now], b, all, k) == CoveredWith(terms, clock, b, window, k)
    {
      assert all[..k] == window[..k];
    }
  }

  lemma ClosedSnoc<R>(terms: Terms, clock: seq<nat>, now: nat, closed: seq<seq<seq<R>>>, window: seq<seq<R>>)
    requires forall i :: 0 <= i < |closed| ==> ClosedOnTime(terms, clock, closed, i)
    ensures forall i :: 0 <= i < |closed| ==> ClosedOnTime(terms, clock + [now], closed, i)
    ensures forall i :: 0 <= i < |closed| ==> ClosedOnTime(terms, clock + [now], closed + [window], i)
  {
    forall i | 0 <= i < |closed|
      ensures ClosedOnTime(terms, clock + [now], closed, i) && ClosedOnTime(terms, clock + [now], closed + [window], i)
    {
      assert ClosedOnTime(terms, clock, closed, i);
      FollowsLonger(terms, clock, now, Before(closed, i), closed[i], true);
      BeforeSnoc(closed, window, i);
    }
  }

  /** On time, and the machine's counters are those of the open window. */
  ghost predicate InTime<R>(terms: Terms, clock: seq<nat>, s: State<R>) {
    && OnTime(terms, clock, s)
    && s.count == |s.window| % UINT32_SPAN && s.last == TimeBefore(terms.start, clock, Before(s.closed, |s.closed|))
  }

  /** One more sample, which closes the window if that is covered now. */
  lemma MoreInTime<R>(terms: Terms, clock: seq<nat>, now: nat, s: State<R>, sample: seq<R>, t: State<R>)
    requires InTime(terms, clock, s)
    requires var window := s.window + [sample];
             t == if IsCovered(terms, s.last, window, now) then State([], 0, now, s.closed + [window])
                  else State(window, |window| % UINT32_SPAN, s.last, s.closed)
    ensures InTime(terms, clock + [now], t)
  {
    var b, window := Before(s.closed, |s.closed|), s.window + [sample];
    FollowsSnoc(terms, clock, now, b, s.window, sample);
    ClosedSnoc(terms, clock, now, s.closed, window);
    BeforeSnoc(s.closed, window, |s.closed|);
    if IsCovered(terms, s.last, window, now) {
      assert ClosedOnTime(terms, clock + [now], t.closed, |s.closed|);
    }
  }

  lemma StepCloses<R>(c: Config, s: State<R>, sample: seq<R>, now: nat)
    ensures var window := s.window + [Kept(c, Pending(s), sample)];
            Step(c, s, sample, now)
            == if Due(c, Increment(s.count), s.last, now) && (c.rule == CloseWhenDue || Flatten(window) != [])
               then State([], 0, now, s.closed + [window]) else State(window, Increment(s.count), s.last, s.closed)
  {
  }

  lemma StepIsInTime<R>(terms: Terms, m: nat, clock: seq<nat>, s: State<R>, sample: seq<R>, now: nat)
    requires 0 < terms.sampling && InTime(terms, clock, s)
    ensures InTime(terms, clock + [now], Step(DisciplineOf(terms, m), s, sample, now))
  {
    var c := DisciplineOf(terms, m);
    var kept := Kept(c, Pending(s), sample);
    CoveredIsDue(terms, m, s.last, s.window + [kept], now);
    IncrementIsModular(|s.window|);
    StepCloses(c, s, sample, now);
    MoreInTime(terms, clock, now, s, kept, Step(c, s, sample, now));
  }

  lemma StartIsInTime<R>(terms: Terms)
    ensures InTime(terms, [], State<R>.State([], 0, terms.start, []))
  {
  }

  /** Every run, of any length and over any clock, hands its windows over on time: not late, and not early. */
  lemma {:induction false} RunIsInTime<R>(terms: Terms, m: nat, samples: seq<seq<R>>, clock: seq<nat>)
    requires 0 < terms.sampling && |samples| == |clock|
    ensures InTime(terms, clock, Run(DisciplineOf(terms, m), terms.start, samples, clock))
  {
    if samples == [] {
      StartIsInTime<R>(terms);
    } else {
      var n, c := |samples| - 1, DisciplineOf(terms, m);
      RunIsInTime(terms, m, samples[..n], clock[..n]);
      StepIsInTime(terms, m, clock[..n], Run(c, terms.start, samples[..n], clock[..n]), samples[n], clock[n]);
      LastAgain(clock);
    }
  }

  // ----- What that means window by window

  lemma CoveredAtTheEnd<R>(terms: Terms, clock: seq<nat>, b: nat, window: seq<seq<R>>, covered: bool)
    requires Follows(terms, clock, b, window, covered) && window != []
    ensures IsCovered(terms, TimeBefore(terms.start, clock, b), window, clock[b + |window| - 1]) == covered
  {
    assert window[..|window|] == window;
    assert CoveredWith(terms, clock, b, window, |window|) == covered;
  }

  /** A window is closed at the latest with a full one's last sample. */
  lemma WindowIsShort<R>(terms: Terms, clock: seq<nat>, b: nat, window: seq<seq<R>>, full: nat)
    requires terms.rule == CloseWhenDue && 0 < terms.sampling
    requires full == SamplesPerStream(terms.streaming, terms.sampling) && 1 <= full < UINT32_SPAN
    requires Follows(terms, clock, b, window, true)
    ensures |window| <= full
  {
    if |window| > full {
      CoveredByCount(terms, TimeBefore(terms.start, clock, b), window[..full], clock[b + full - 1]);
      assert CoveredWith(terms, clock, b, window, full);
    }
  }

  lemma CoveredByCount<R>(terms: Terms, last: nat, window: seq<seq<R>>, now: nat)
    requires terms.rule == CloseWhenDue && |window| < UINT32_SPAN && 0 < terms.sampling
    ensures IsCovered(terms, last, window, now) <==>
            |window| >= SamplesPerStream(terms.streaming, terms.sampling) || Passed(last, now, terms.streaming)
  {
    assert |window| % UINT32_SPAN == |window|;
    EnoughSamples(terms.streaming, terms.sampling, |window|);
  }

  /** Where every due window is closed, a batch has exactly the samples of one streaming interval, unless that much time passed first. */
  lemma {:induction false} WindowIsFullOrOld<R>(terms: Terms, clock: seq<nat>, s: State<R>, i: nat)
    requires terms.rule == CloseWhenDue && 0 < terms.sampling && 0 < terms.streaming < 0x1_0000
    requires OnTime(terms, clock, s) && i < |s.closed|
    ensures var b, n := Before(s.closed, i), |s.closed[i]|;
            && 1 <= n <= SamplesPerStream(terms.streaming, terms.sampling) && b + n <= |clock|
            && (n == SamplesPerStream(terms.streaming, terms.sampling)
                || Passed(TimeBefore(terms.start, clock, b), clock[b + n - 1], terms.streaming))
  {
    var b, window, full := Before(s.closed, i), s.closed[i], SamplesPerStream(terms.streaming, terms.sampling);
    assert ClosedOnTime(terms, clock, s.closed, i);
    FullWindows(terms.streaming, terms.sampling);
    WindowIsShort(terms, clock, b, window, full);
    CoveredAtTheEnd(terms, clock, b, window, true);
    CoveredByCount(terms, TimeBefore(terms.start, clock, b), window, clock[b + |window| - 1]);
  }

  lemma FullWindows(streaming: nat, sampling: nat)
    requires 0 < sampling && 0 < streaming
    ensures 1 <= SamplesPerStream(streaming, sampling) <= streaming
  {
    WindowsAreShort(SamplesPerStream(streaming, sampling), streaming, sampling);
  }

  /** A reading that still waits is younger than the streaming interval, in both senses. */
  lemma PendingIsYoung<R>(terms: Terms, clock: seq<nat>, s: State<R>)
    requires OnTime(terms, clock, s) && Pending(s) != []
    ensures |clock| > 0 && Before(s.closed, |s.closed|) <= |clock|
    ensures |s.window| % UINT32_SPAN * terms.sampling < terms.streaming
    ensures !Passed(TimeBefore(terms.start, clock, Before(s.closed, |s.closed|)), clock[|clock| - 1], terms.streaming)
  {
    NothingInside(s.window);
    CoveredAtTheEnd(terms, clock, Before(s.closed, |s.closed|), s.window, false);
  }
}
