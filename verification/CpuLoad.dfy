/**
 CPU load from /proc/stat: which load slots a snapshot updates, what a pair of
 slots says about a core, and how the cores combine into the capacity-weighted total.
 double is modelled by real.
 */
module CpuLoad {
  import opened Common

  /** The ten counters of a "cpuN" line. */
  datatype Fields = Fields(user: real, nice: real, system: real, idle: real, iowait: real,
                           irq: real, softirq: real, steal: real, guest: real, guestNice: real)

  /** A line after the aggregate one: the counters of a core, or anything else. */
  datatype Line = Core(id: nat, f: Fields) | Other

  /** struct QcomLinuxCpuLoadInfo */
  datatype LoadInfo = LoadInfo(idle: real, total: real, steal: real)

  const ZERO_FIELDS := Fields(0.0, 0.0, 0.0, 0.0, 0.0, 0.0, 0.0, 0.0, 0.0, 0.0)
  const NO_LOAD := LoadInfo(0.0, 0.0, 0.0)

  function LoadOf(f: Fields): LoadInfo {
    LoadInfo(f.idle + f.iowait,
             f.user + f.nice + f.system + f.idle + f.iowait + f.irq + f.softirq + f.steal + f.guest + f.guestNice,
             f.steal)
  }

  // ----- Snapshots

  /** The slots after the lines, of which cores have been taken so far; a core without a line stays stale. */
  function Snapshot(load: seq<LoadInfo>, lines: seq<Line>, taken: nat): (r: seq<LoadInfo>)
    ensures |r| == |load|
    decreases |lines|
  {
    if lines == [] || taken >= |load| then load
    else if lines[0].Core? && lines[0].id < |load| then
      Snapshot(load[lines[0].id := LoadOf(lines[0].f)], lines[1..], taken + 1)
    else Snapshot(load, lines[1..], taken)
  }

  /** qcom_linux_cpu_util_get_proc_stat; lines is None if the file cannot be opened. */
  method GetProcStat(lines: Option<seq<Line>>, load: array<LoadInfo>) returns (code: ReturnCode)
    modifies load
    ensures load[..] == if lines.Some? then Snapshot(old(load[..]), lines.value, 0) else old(load[..])
    ensures code == Success <==> lines.Some? && exists l :: l in lines.value && l.Core? && l.id < load.Length
  {
    code := Failed;
    if lines.None? {
      return;
    }
    var taken, k := 0, 0;
    while k < |lines.value| && taken < load.Length
      invariant k <= |lines.value|
      invariant Snapshot(load[..], lines.value[k..], taken) == Snapshot(old(load[..]), lines.value, 0)
      invariant taken > 0 <==> exists l :: l in lines.value[..k] && l.Core? && l.id < load.Length
    {
      var line := lines.value[k];
      assert lines.value[k..][1..] == lines.value[k + 1..];
      assert lines.value[..k + 1] == lines.value[..k] + [line];
      if line.Core? && line.id < load.Length {
        ghost var before := load[..];
        load[line.id] := LoadOf(line.f);
        assert load[..] == before[line.id := LoadOf(line.f)];
        taken := taken + 1;
      }
      k := k + 1;
    }
    if taken > 0 {
      code := Success;
    }
    assert k == |lines.value| ==> lines.value[..k] == lines.value;
    assert forall l :: l in lines.value[..k] ==> l in lines.value;
  }

  /** The slot of core c holds the counters of one of its lines, or still the zeros of calloc. */
  ghost predicate FromTrace(slot: LoadInfo, c: nat, trace: seq<Line>) {
    slot == NO_LOAD || exists i :: 0 <= i < |trace| && trace[i].Core? && trace[i].id == c && slot == LoadOf(trace[i].f)
  }

  ghost predicate AllFromTrace(load: seq<LoadInfo>, trace: seq<Line>) {
    forall c :: 0 <= c < |load| ==> FromTrace(load[c], c, trace)
  }

  lemma LongerTrace(load: seq<LoadInfo>, trace: seq<Line>, more: seq<Line>)
    requires AllFromTrace(load, trace)
    ensures AllFromTrace(load, trace + more)
  {
    forall c | 0 <= c < |load| ensures FromTrace(load[c], c, trace + more) {
      if load[c] != NO_LOAD {
        var i :| 0 <= i < |trace| && trace[i].Core? && trace[i].id == c && load[c] == LoadOf(trace[i].f);
        assert (trace + more)[i] == trace[i];
      }
    }
  }

  /** A snapshot moves slots to its own lines or leaves them where they were. */
  lemma {:induction false} SnapshotIsFromTrace(load: seq<LoadInfo>, trace: seq<Line>, lines: seq<Line>, taken: nat)
    requires AllFromTrace(load, trace)
    ensures AllFromTrace(Snapshot(load, lines, taken), trace + lines)
    decreases |lines|
  {
    LongerTrace(load, trace, lines);
    if lines != [] && taken < |load| {
      var first := lines[0];
      LongerTrace(load, trace, [first]);
      assert trace + lines == (trace + [first]) + lines[1..];
      if first.Core? && first.id < |load| {
        var next := load[first.id := LoadOf(first.f)];
        assert (trace + [first])[|trace|] == first;
        SnapshotIsFromTrace(next, trace + [first], lines[1..], taken + 1);
      } else {
        SnapshotIsFromTrace(load, trace + [first], lines[1..], taken);
      }
    }
  }

  /** How many of the lines are of one of n cores. */
  function CoreLines(lines: seq<Line>, n: nat): nat {
    if lines == [] then 0
    else CoreLines(lines[1..], n) + if lines[0].Core? && lines[0].id < n then 1 else 0
  }

  /** Line k is taken into a snapshot of n cores: it is of one of them, and not all of them have been taken before. */
  ghost predicate IsTaken(lines: seq<Line>, taken: nat, n: nat, k: nat) {
    k < |lines| && lines[k].Core? && lines[k].id < n && taken + CoreLines(lines[..k], n) < n
  }

  /** k is the last line of core c that is taken, -1 if none is. */
  ghost predicate IsLastOf(lines: seq<Line>, taken: nat, n: nat, c: nat, k: int) {
    && (k == -1 || (0 <= k && IsTaken(lines, taken, n, k) && lines[k].id == c))
    && forall j: nat :: k < j && IsTaken(lines, taken, n, j) ==> lines[j].id != c
  }

  /** What a snapshot leaves in the slot of core c: its last line that is taken, or what was there before if none is. */
  lemma {:induction false} SlotHoldsTheLastLine(load: seq<LoadInfo>, lines: seq<Line>, taken: nat, c: nat, k: int)
    requires c < |load| && IsLastOf(lines, taken, |load|, c, k)
    ensures Snapshot(load, lines, taken)[c] == if k == -1 then load[c] else LoadOf(lines[k].f)
    decreases |lines|
  {
    if lines != [] && taken < |load| {
      var n, isCore := |load|, lines[0].Core? && lines[0].id < |load|;
      var next := if isCore then taken + 1 else taken;
      assert isCore <==> IsTaken(lines, taken, n, 0);
      RestIsTakenAlike(lines, taken, next, n);
      assert IsLastOf(lines[1..], next, n, c, if k <= 0 then -1 else k - 1) by {
        assert forall j: nat :: IsTaken(lines[1..], next, n, j) ==> IsTaken(lines, taken, n, j + 1);
      }
      SlotHoldsTheLastLine(if isCore then load[lines[0].id := LoadOf(lines[0].f)] else load, lines[1..], next, c,
                           if k <= 0 then -1 else k - 1);
    }
  }

  lemma RestIsTakenAlike(lines: seq<Line>, taken: nat, next: nat, n: nat)
    requires lines != [] && next == if lines[0].Core? && lines[0].id < n then taken + 1 else taken
    ensures forall j: nat :: IsTaken(lines[1..], next, n, j) == IsTaken(lines, taken, n, j + 1)
  {
    forall j: nat | j + 1 < |lines|
      ensures CoreLines(lines[..j + 1], n) == CoreLines(lines[1..][..j], n) + if lines[0].Core? && lines[0].id < n then 1 else 0
    {
      assert lines[..j + 1][1..] == lines[1..][..j];
    }
  }

  // ----- Utilization of one core

  datatype Usage = Usage(utilization: real, steal: real, effective: real)

  function Abs(x: real): real {
    if x < 0.0 then -x else x
  }

  function UsageOf(prev: LoadInfo, curr: LoadInfo): Usage {
    var total := curr.total - prev.total;
    var idle := curr.idle - prev.idle;
    var steal := curr.steal - prev.steal;
    if total > 0.0 then
      Usage(Abs((total - idle) / total * 100.0), Abs(steal / total * 100.0), Abs((total - idle - steal) / total * 100.0))
    else Usage(0.0, 0.0, 0.0)
  }

  ghost predicate NonNegative(f: Fields) {
    f.user >= 0.0 && f.nice >= 0.0 && f.system >= 0.0 && f.idle >= 0.0 && f.iowait >= 0.0
    && f.irq >= 0.0 && f.softirq >= 0.0 && f.steal >= 0.0 && f.guest >= 0.0 && f.guestNice >= 0.0
  }

  ghost predicate AtMost(f: Fields, g: Fields) {
    f.user <= g.user && f.nice <= g.nice && f.system <= g.system && f.idle <= g.idle && f.iowait <= g.iowait
    && f.irq <= g.irq && f.softirq <= g.softirq && f.steal <= g.steal && f.guest <= g.guest && f.guestNice <= g.guestNice
  }

  /** The counters of each core start at zero or above and never decrease, in the order in which they are read. */
  ghost predicate Monotone(trace: seq<Line>) {
    && (forall i :: 0 <= i < |trace| && trace[i].Core? ==> NonNegative(trace[i].f))
    && (forall i, j :: 0 <= i < j < |trace| && trace[i].Core? && trace[j].Core? && trace[i].id == trace[j].id ==>
          AtMost(trace[i].f, trace[j].f))
  }

  ghost predicate Sound(u: Usage) {
    0.0 <= u.effective <= u.utilization <= 100.0 && 0.0 <= u.steal && u.effective == u.utilization - u.steal
  }

  lemma Fraction(x: real, d: real)
    requires 0.0 <= x <= d && d > 0.0
    ensures 0.0 <= x / d <= 1.0
  {
    var q := x / d;
    assert q * d == x;
    assert q < 0.0 ==> q * d < 0.0;
    assert q > 1.0 ==> (q - 1.0) * d > 0.0;
  }

  lemma Difference(a: real, b: real, d: real)
    requires d > 0.0
    ensures (a - b) / d == a / d - b / d
  {
    var p, q := a / d, b / d;
    assert (p - q) * d == a - b;
    assert (a - b) / d * d == (p - q) * d;
  }

  /** Whichever of the two readings is the older one, the usage of a core is sound. */
  lemma ComparableReadingsAreSound(f: Fields, g: Fields)
    requires NonNegative(f) && NonNegative(g) && (AtMost(f, g) || AtMost(g, f))
    ensures Sound(UsageOf(LoadOf(f), LoadOf(g)))
  {
    var p, q := LoadOf(f), LoadOf(g);
    var total, idle, steal := q.total - p.total, q.idle - p.idle, q.steal - p.steal;
    if total > 0.0 {
      assert 0.0 <= idle && 0.0 <= steal && idle + steal <= total;
      Fraction(total - idle, total);
      Fraction(steal, total);
      Fraction(total - idle - steal, total);
      Difference(total - idle, steal, total);
    }
  }

  /** q is the part of d that a times 100 is. */
  lemma Quotient(a: real, d: real)
    requires d > 0.0
    ensures (a / d * 100.0) * d == 100.0 * a
  {
    var q := a / d;
    assert q * d == a;
    assert (q * 100.0) * d == (q * d) * 100.0;
  }

  /**
   The usage of a core in terms of its counters: if they went forward, the busy time in
   percent of all time, and the stolen time and the rest of it likewise; if no time
   passed between the two readings, or they are in the wrong order, 0.
   */
  lemma UsageIsTheBusyShare(f: Fields, g: Fields)
    ensures var u := UsageOf(LoadOf(f), LoadOf(g));
            var busy := (g.user - f.user) + (g.nice - f.nice) + (g.system - f.system) + (g.irq - f.irq)
                        + (g.softirq - f.softirq) + (g.steal - f.steal) + (g.guest - f.guest) + (g.guestNice - f.guestNice);
            var all := busy + (g.idle - f.idle) + (g.iowait - f.iowait);
            if all > 0.0 then
              AtMost(f, g) ==>
                && u.utilization * all == 100.0 * busy
                && u.steal * all == 100.0 * (g.steal - f.steal)
                && u.effective * all == 100.0 * (busy - (g.steal - f.steal))
            else u == Usage(0.0, 0.0, 0.0)
  {
    var p, q := LoadOf(f), LoadOf(g);
    var total, idle, steal := q.total - p.total, q.idle - p.idle, q.steal - p.steal;
    if total > 0.0 && AtMost(f, g) {
      assert 0.0 <= idle && 0.0 <= steal && idle + steal <= total;
      SharesOfTheTime(p, q);
    }
  }

  /** x is the percentage of all time between the counters f and g that was busy; 0 if no time passed. */
  ghost predicate IsBusyShare(x: real, f: Fields, g: Fields) {
    var busy := (g.user - f.user) + (g.nice - f.nice) + (g.system - f.system) + (g.irq - f.irq)
                + (g.softirq - f.softirq) + (g.steal - f.steal) + (g.guest - f.guest) + (g.guestNice - f.guestNice);
    var all := busy + (g.idle - f.idle) + (g.iowait - f.iowait);
    if all > 0.0 then x * all == 100.0 * busy else x == 0.0
  }

  lemma UtilizationIsTheBusyShare(f: Fields, g: Fields)
    requires AtMost(f, g)
    ensures IsBusyShare(UsageOf(LoadOf(f), LoadOf(g)).utilization, f, g)
  {
    UsageIsTheBusyShare(f, g);
  }

  lemma SharesOfTheTime(p: LoadInfo, q: LoadInfo)
    requires q.total > p.total && p.idle <= q.idle && p.steal <= q.steal
    requires (q.idle - p.idle) + (q.steal - p.steal) <= q.total - p.total
    ensures var u, total, idle, steal := UsageOf(p, q), q.total - p.total, q.idle - p.idle, q.steal - p.steal;
            && u.utilization * total == 100.0 * (total - idle)
            && u.steal * total == 100.0 * steal
            && u.effective * total == 100.0 * (total - idle - steal)
  {
    var total, idle, steal := q.total - p.total, q.idle - p.idle, q.steal - p.steal;
    PositiveQuotient(total - idle, total);
    PositiveQuotient(steal, total);
    PositiveQuotient(total - idle - steal, total);
  }

  lemma PositiveQuotient(a: real, d: real)
    requires 0.0 <= a <= d && d > 0.0
    ensures Abs(a / d * 100.0) * d == 100.0 * a
  {
    Fraction(a, d);
    Quotient(a, d);
  }

  /** The counters of a slot: zero, or those of a line. */
  function FieldsAt(trace: seq<Line>, i: int): Fields
    requires -1 <= i < |trace| && (i >= 0 ==> trace[i].Core?)
  {
    if i < 0 then ZERO_FIELDS else trace[i].f
  }

  lemma LinesAreSound(trace: seq<Line>, c: nat, i: int, j: int)
    requires Monotone(trace) && -1 <= i < |trace| && -1 <= j < |trace|
    requires i >= 0 ==> trace[i].Core? && trace[i].id == c
    requires j >= 0 ==> trace[j].Core? && trace[j].id == c
    ensures Sound(UsageOf(LoadOf(FieldsAt(trace, i)), LoadOf(FieldsAt(trace, j))))
  {
    var f, g := FieldsAt(trace, i), FieldsAt(trace, j);
    assert NonNegative(f) && NonNegative(g);
    assert i <= j ==> AtMost(f, g);
    assert j <= i ==> AtMost(g, f);
    ComparableReadingsAreSound(f, g);
  }

  lemma LineOfSlot(slot: LoadInfo, c: nat, trace: seq<Line>) returns (i: int)
    requires FromTrace(slot, c, trace)
    ensures -1 <= i < |trace| && (i >= 0 ==> trace[i].Core? && trace[i].id == c)
    ensures slot == LoadOf(FieldsAt(trace, i))
  {
    if slot == NO_LOAD {
      i := -1;
    } else {
      i :| 0 <= i < |trace| && trace[i].Core? && trace[i].id == c && slot == LoadOf(trace[i].f);
    }
  }

  /** Two slots of one core, filled at any times from one monotone trace, give a sound usage. */
  lemma SlotsAreSound(prev: LoadInfo, curr: LoadInfo, c: nat, trace: seq<Line>)
    requires Monotone(trace) && FromTrace(prev, c, trace) && FromTrace(curr, c, trace)
    ensures Sound(UsageOf(prev, curr))
  {
    var i := LineOfSlot(prev, c, trace);
    var j := LineOfSlot(curr, c, trace);
    LinesAreSound(trace, c, i, j);
  }

  // ----- The capacity-weighted total

  function Sum(caps: seq<nat>): nat {
    if caps == [] then 0 else Sum(caps[..|caps| - 1]) + caps[|caps| - 1]
  }

  /** The sum of values[c] * (caps[c] / total); 0 if no total capacity is known. */
  function Weighted(values: seq<real>, caps: seq<nat>, total: nat): real
    requires |values| == |caps|
  {
    if total == 0 || values == [] then 0.0
    else
      var n := |values| - 1;
      Weighted(values[..n], caps[..n], total) + values[n] * Share(caps[n], total)
  }

  function Share(cap: nat, total: nat): real
    requires total > 0
  {
    cap as real / total as real
  }

  /** The sum of the cores' shares of the total. */
  function Shares(caps: seq<nat>, total: nat): real
    requires total > 0
  {
    if caps == [] then 0.0 else Shares(caps[..|caps| - 1], total) + Share(caps[|caps| - 1], total)
  }

  lemma {:induction false} SharesAddUp(caps: seq<nat>, total: nat)
    requires total > 0
    ensures Shares(caps, total) == Share(Sum(caps), total)
  {
    if caps != [] {
      var n := |caps| - 1;
      SharesAddUp(caps[..n], total);
      Fractions(caps[n], Sum(caps[..n]), total);
    }
  }

  function Constant(x: real, n: nat): (s: seq<real>)
    ensures |s| == n
  {
    seq(n, _ => x)
  }

  /** Equal loads add up to that load, scaled by the cores' shares. */
  lemma {:induction false} ConstantLoad(x: real, caps: seq<nat>, total: nat)
    requires total > 0
    ensures Weighted(Constant(x, |caps|), caps, total) == x * Shares(caps, total)
  {
    if caps != [] {
      var n := |caps| - 1;
      ConstantLoad(x, caps[..n], total);
      assert Constant(x, n + 1)[..n] == Constant(x, n);
      Distribute(x, Shares(caps[..n], total), Share(caps[n], total));
    }
  }

  lemma Distribute(x: real, a: real, b: real)
    ensures x * (a + b) == x * a + x * b
  {
  }

  /** With no more capacity than the total, equal loads add up to at most that load; with all of it, to exactly that load. */
  lemma {:induction false} ConstantTotal(x: real, caps: seq<nat>, total: nat)
    requires total > 0 && Sum(caps) <= total && x >= 0.0
    ensures 0.0 <= Weighted(Constant(x, |caps|), caps, total) <= x
  {
    ConstantLoad(x, caps, total);
    SharesAddUp(caps, total);
    Fraction(Sum(caps) as real, total as real);
    var s := Shares(caps, total);
    Between(0.0, s, x);
    Between(s, 1.0, x);
  }

  lemma {:induction false} WholeTotal(x: real, caps: seq<nat>, total: nat)
    requires total > 0 && Sum(caps) == total
    ensures Weighted(Constant(x, |caps|), caps, total) == x
  {
    ConstantLoad(x, caps, total);
    SharesAddUp(caps, total);
    OwnShare(total as real);
    assert Shares(caps, total) == 1.0;
  }

  lemma OwnShare(d: real)
    requires d > 0.0
    ensures d / d == 1.0
  {
    Fraction(d, d);
    var q := d / d;
    assert q * d == d;
    assert q < 1.0 ==> (1.0 - q) * d > 0.0;
  }

  lemma Fractions(a: nat, b: nat, total: nat)
    requires total > 0
    ensures a as real / total as real >= 0.0
    ensures (b + a) as real / total as real == b as real / total as real + a as real / total as real
  {
    var p, q, d := a as real / total as real, b as real / total as real, total as real;
    assert p * d == a as real && q * d == b as real;
    assert (p + q) * d == (b + a) as real;
    assert p < 0.0 ==> p * d < 0.0;
  }

  lemma Between(a: real, b: real, w: real)
    requires a <= b && w >= 0.0
    ensures a * w <= b * w
  {
    assert (b - a) * w >= 0.0;
  }

  /** When the core capacities add up to the total, the total load is a convex combination of the core loads. */
  lemma {:induction false} TotalIsConvex(values: seq<real>, caps: seq<nat>, total: nat, lo: real, hi: real)
    requires |values| == |caps| && total > 0 && Sum(caps) == total
    requires forall c :: 0 <= c < |values| ==> lo <= values[c] <= hi
    ensures lo <= Weighted(values, caps, total) <= hi
  {
    var n := |caps|;
    WeightedIsMonotone(Constant(lo, n), values, caps, total);
    WeightedIsMonotone(values, Constant(hi, n), caps, total);
    WholeTotal(lo, caps, total);
    WholeTotal(hi, caps, total);
  }

  /** Even with capacities missing, the total of loads in [0, 100] stays there. */
  lemma {:induction false} TotalIsAPercentage(values: seq<real>, caps: seq<nat>, total: nat)
    requires |values| == |caps| && Sum(caps) <= total
    requires forall c :: 0 <= c < |values| ==> 0.0 <= values[c] <= 100.0
    ensures 0.0 <= Weighted(values, caps, total) <= 100.0
  {
    if total > 0 {
      var n := |caps|;
      WeightedIsMonotone(Constant(0.0, n), values, caps, total);
      WeightedIsMonotone(values, Constant(100.0, n), caps, total);
      ConstantTotal(0.0, caps, total);
      ConstantTotal(100.0, caps, total);
    }
  }

  /** Each core counts by its share of the capacity, and by nothing else: x more load on core c is x times that share in the total. */
  lemma {:induction false} TotalIsLinear(values: seq<real>, caps: seq<nat>, total: nat, c: nat, x: real)
    requires c < |values| == |caps| && total > 0
    ensures Weighted(values[c := values[c] + x], caps, total) == Weighted(values, caps, total) + x * (caps[c] as real / total as real)
  {
    LastCoreIsLinear(values[..c], values[c], caps[..c + 1], total, x);
    assert caps[..c + 1][c] == caps[c];
    assert values[..c] + [values[c]] == values[..c + 1];
    CoresBehindAddTheSame(values[c := values[c] + x], values, caps, total, c + 1, x * (caps[c] as real / total as real));
    assert values[c := values[c] + x][..c + 1] == values[..c] + [values[c] + x];
  }

  /** Equal loads of the cores from k on do not change a difference between two totals. */
  lemma {:induction false} CoresBehindAddTheSame(a: seq<real>, b: seq<real>, caps: seq<nat>, total: nat, k: nat, more: real)
    requires k <= |a| == |b| == |caps| && total > 0 && a[k..] == b[k..]
    requires Weighted(a[..k], caps[..k], total) == Weighted(b[..k], caps[..k], total) + more
    ensures Weighted(a, caps, total) == Weighted(b, caps, total) + more
    decreases |a| - k
  {
    if k == |a| {
      assert a[..k] == a && b[..k] == b && caps[..k] == caps;
    } else {
      assert caps[..k + 1][..k] == caps[..k] && a[k] == a[k..][0] == b[k];
      LastCoreAddsTheSame(a[..k], b[..k], a[k], caps[..k + 1], total, more);
      assert a[..k] + [a[k]] == a[..k + 1] && b[..k] + [a[k]] == b[..k + 1];
      assert a[k + 1..] == a[k..][1..] && b[k + 1..] == b[k..][1..];
      CoresBehindAddTheSame(a, b, caps, total, k + 1, more);
    }
  }

  lemma {:induction false} LastCoreAddsTheSame(a: seq<real>, b: seq<real>, value: real, caps: seq<nat>, total: nat, more: real)
    requires |caps| == |a| + 1 == |b| + 1 && total > 0
    requires Weighted(a, caps[..|a|], total) == Weighted(b, caps[..|a|], total) + more
    ensures Weighted(a + [value], caps, total) == Weighted(b + [value], caps, total) + more
  {
    LastCoreCounts(a, value, caps, total);
    LastCoreCounts(b, value, caps, total);
  }

  lemma {:induction false} LastCoreIsLinear(values: seq<real>, value: real, caps: seq<nat>, total: nat, x: real)
    requires |caps| == |values| + 1 && total > 0
    ensures Weighted(values + [value + x], caps, total)
         == Weighted(values + [value], caps, total) + x * (caps[|values|] as real / total as real)
  {
    MoreLoad(value, x, Share(caps[|values|], total));
    LastCoreCounts(values, value, caps, total);
    LastCoreCounts(values, value + x, caps, total);
  }

  lemma {:induction false} LastCoreCounts(values: seq<real>, value: real, caps: seq<nat>, total: nat)
    requires |caps| == |values| + 1 && total > 0
    ensures Weighted(values + [value], caps, total) == Weighted(values, caps[..|values|], total) + value * Share(caps[|values|], total)
  {
    assert (values + [value])[..|values|] == values;
  }

  lemma MoreLoad(value: real, x: real, share: real)
    ensures (value + x) * share == value * share + x * share
  {
  }

  /** With no load, or no known capacity, the total is 0. */
  lemma {:induction false} NoLoadNoTotal(values: seq<real>, caps: seq<nat>, total: nat)
    requires |values| == |caps| && (total == 0 || forall c :: 0 <= c < |values| ==> values[c] == 0.0)
    ensures Weighted(values, caps, total) == 0.0
  {
    if values != [] && total > 0 {
      NoLoadNoTotal(values[..|values| - 1], caps[..|values| - 1], total);
    }
  }

  /** A pointwise smaller load has a smaller total. */
  lemma {:induction false} WeightedIsMonotone(a: seq<real>, b: seq<real>, caps: seq<nat>, total: nat)
    requires |a| == |b| == |caps| && forall c :: 0 <= c < |a| ==> a[c] <= b[c]
    ensures Weighted(a, caps, total) <= Weighted(b, caps, total)
  {
    if a != [] && total > 0 {
      var n := |a| - 1;
      WeightedIsMonotone(a[..n], b[..n], caps[..n], total);
      Fractions(caps[n], 0, total);
      Between(a[n], b[n], Share(caps[n], total));
    }
  }
}
