/**
 * The daemon soak: a paced drive that takes one settled reading per session lifecycle, and the detectors that
 * tell a leak from jitter. Time is a rational in milliseconds.
 */
module Soak {
  import opened Wrappers
  import opened Seqs

  const MULTI_DAY_MS := 172800000.0
  const MIN_CYCLES := 4
  const TOLERANCE := 2
  const STABLE_READINGS := 3
  const SETTLE_TIMEOUT_MS := 5000.0
  const SETTLE_POLL_MS := 20.0

  datatype Sample = Sample(cycle: int, total: int, byType: map<string, nat>)

  datatype Plan = Plan(cycles: nat, durationMs: real)

  datatype Capture = Capture(
    plan: Option<Plan>, baseline: Option<Sample>, cycles: seq<Sample>, lifecyclesCompleted: Option<nat>,
    spanMs: Option<real>, toleranceHandles: Option<int>, lifecycleFailed: bool)

  datatype Verdict = Verified | Drift | Inconclusive

  /** What was seen to drift; growth names the first cycle that crossed. */
  datatype Violation = BaselineReturn(cycle: int) | TypeGrowth(resource: string, cycle: int) | Monotonic

  datatype Gap = Lifecycles | PlanGap | BaselineGap | Series | Span

  datatype Report = Report(verdict: Verdict, violations: seq<Violation>, gaps: seq<Gap>, spannedMultiDay: bool)

  // ----- the detectors -----

  function Count(s: Sample, resource: string): nat {
    if resource in s.byType then s.byType[resource] else 0
  }

  function Totals(cycles: seq<Sample>): seq<int> {
    seq(|cycles|, i requires 0 <= i < |cycles| => cycles[i].total)
  }

  predicate IsMonotonicGrowth(values: seq<int>) {
    && |values| >= 2
    && values[|values| - 1] > values[0]
    && forall i :: 1 <= i < |values| ==> values[i] >= values[i - 1]
  }

  function Resources(baseline: Sample, cycles: seq<Sample>): set<string> {
    baseline.byType.Keys + set i, r | 0 <= i < |cycles| && r in cycles[i].byType.Keys :: r
  }

  predicate OverTotal(baseline: Sample, s: Sample, tolerance: int) {
    s.total - baseline.total > tolerance
  }

  predicate OverType(baseline: Sample, s: Sample, resource: string, tolerance: int) {
    Count(s, resource) - Count(baseline, resource) > tolerance
  }

  /** `v` names a first crossing of the baseline. */
  ghost predicate IsGrowth(v: Violation, baseline: Sample, cycles: seq<Sample>, tolerance: int) {
    match v
    case BaselineReturn(cycle) =>
      exists i :: 0 <= i < |cycles| && cycles[i].cycle == cycle && OverTotal(baseline, cycles[i], tolerance)
                  && forall j :: 0 <= j < i ==> !OverTotal(baseline, cycles[j], tolerance)
    case TypeGrowth(resource, cycle) =>
      && resource in Resources(baseline, cycles)
      && exists i :: 0 <= i < |cycles| && cycles[i].cycle == cycle && OverType(baseline, cycles[i], resource, tolerance)
                     && forall j :: 0 <= j < i ==> !OverType(baseline, cycles[j], resource, tolerance)
    case Monotonic => false
  }

  /** The first cycle over the baseline's total. */
  method FindOverTotal(baseline: Sample, cycles: seq<Sample>, tolerance: int) returns (first: Option<Violation>)
    ensures first.Some? ==> first.value.BaselineReturn? && IsGrowth(first.value, baseline, cycles, tolerance)
    ensures first.None? <==> WithinTotal(baseline, cycles, tolerance)
  {
    for i := 0 to |cycles|
      invariant forall j :: 0 <= j < i ==> !OverTotal(baseline, cycles[j], tolerance)
    {
      if cycles[i].total - baseline.total > tolerance {
        return Some(BaselineReturn(cycles[i].cycle));
      }
    }
    return None;
  }

  /** The first cycle over the baseline's count of one resource type. */
  method FindOverType(baseline: Sample, cycles: seq<Sample>, resource: string, tolerance: int)
    returns (first: Option<Violation>)
    requires resource in Resources(baseline, cycles)
    ensures first.Some? ==>
              && first.value.TypeGrowth? && first.value.resource == resource
              && IsGrowth(first.value, baseline, cycles, tolerance)
    ensures first.None? <==> WithinType(baseline, cycles, resource, tolerance)
  {
    var base := Count(baseline, resource);
    for i := 0 to |cycles|
      invariant forall j :: 0 <= j < i ==> !OverType(baseline, cycles[j], resource, tolerance)
    {
      if Count(cycles[i], resource) - base > tolerance {
        return Some(TypeGrowth(resource, cycles[i].cycle));
      }
    }
    return None;
  }

  predicate WithinTotal(baseline: Sample, cycles: seq<Sample>, tolerance: int) {
    forall i :: 0 <= i < |cycles| ==> !OverTotal(baseline, cycles[i], tolerance)
  }

  predicate WithinType(baseline: Sample, cycles: seq<Sample>, resource: string, tolerance: int) {
    forall i :: 0 <= i < |cycles| ==> !OverType(baseline, cycles[i], resource, tolerance)
  }

  predicate WithinBaseline(baseline: Sample, cycles: seq<Sample>, tolerance: int) {
    && WithinTotal(baseline, cycles, tolerance)
    && forall r :: r in Resources(baseline, cycles) ==> WithinType(baseline, cycles, r, tolerance)
  }

  predicate NamesType(violations: seq<Violation>, resource: string) {
    exists i :: 0 <= i < |violations| && violations[i].TypeGrowth? && violations[i].resource == resource
  }

  predicate NamesTotal(violations: seq<Violation>) {
    exists i :: 0 <= i < |violations| && violations[i].BaselineReturn?
  }

  /** Exactly the types of `done` that crossed are named. */
  predicate NamesCrossed(
    violations: seq<Violation>, done: set<string>, baseline: Sample, cycles: seq<Sample>, tolerance: int)
  {
    && (forall r :: r in done ==> (NamesType(violations, r) <==> !WithinType(baseline, cycles, r, tolerance)))
    && (forall i :: 0 <= i < |violations| && violations[i].TypeGrowth? ==> violations[i].resource in done)
    && (NamesTotal(violations) <==> !WithinTotal(baseline, cycles, tolerance))
  }

  lemma NamesNext(
    violations: seq<Violation>, done: set<string>, resource: string, crossed: Option<Violation>,
    baseline: Sample, cycles: seq<Sample>, tolerance: int)
    requires NamesCrossed(violations, done, baseline, cycles, tolerance) && resource !in done
    requires crossed.Some? ==> crossed.value.TypeGrowth? && crossed.value.resource == resource
    requires crossed.None? <==> WithinType(baseline, cycles, resource, tolerance)
    ensures NamesCrossed(violations + (if crossed.Some? then [crossed.value] else []), done + {resource},
                         baseline, cycles, tolerance)
  {
    var next := violations + if crossed.Some? then [crossed.value] else [];
    assert forall i :: 0 <= i < |violations| ==> next[i] == violations[i];
    assert !NamesType(violations, resource);
    assert crossed.Some? ==> next[|violations|] == crossed.value && NamesType(next, resource);
    forall r | r in done
      ensures NamesType(next, r) <==> NamesType(violations, r)
    {
      if NamesType(violations, r) {
        var i :| 0 <= i < |violations| && violations[i].TypeGrowth? && violations[i].resource == r;
        assert next[i] == violations[i];
      }
    }
    if NamesTotal(violations) {
      var i :| 0 <= i < |violations| && violations[i].BaselineReturn?;
      assert next[i] == violations[i];
    }
  }

  method FindGrowth(baseline: Sample, cycles: seq<Sample>, tolerance: int) returns (violations: seq<Violation>)
    ensures forall v :: v in violations ==> IsGrowth(v, baseline, cycles, tolerance)
    ensures NamesCrossed(violations, Resources(baseline, cycles), baseline, cycles, tolerance)
    ensures violations == [] <==> WithinBaseline(baseline, cycles, tolerance)
  {
    violations := [];
    var first := FindOverTotal(baseline, cycles, tolerance);
    if first.Some? {
      violations := [first.value];
      assert violations[0].BaselineReturn? && NamesTotal(violations);
    }
    var all := Resources(baseline, cycles);
    var remaining := all;
    while remaining != {}
      invariant remaining <= all
      invariant forall v :: v in violations ==> IsGrowth(v, baseline, cycles, tolerance)
      invariant NamesCrossed(violations, all - remaining, baseline, cycles, tolerance)
      decreases remaining
    {
      var resource :| resource in remaining;
      var crossed := FindOverType(baseline, cycles, resource, tolerance);
      NamesNext(violations, all - remaining, resource, crossed, baseline, cycles, tolerance);
      assert all - remaining + {resource} == all - (remaining - {resource});
      remaining := remaining - {resource};
      violations := violations + if crossed.Some? then [crossed.value] else [];
    }
    assert all - remaining == all;
    NothingNamed(violations, baseline, cycles, tolerance);
  }

  lemma NothingNamed(violations: seq<Violation>, baseline: Sample, cycles: seq<Sample>, tolerance: int)
    requires NamesCrossed(violations, Resources(baseline, cycles), baseline, cycles, tolerance)
    requires forall v :: v in violations ==> IsGrowth(v, baseline, cycles, tolerance)
    ensures violations == [] <==> WithinBaseline(baseline, cycles, tolerance)
  {
    if violations != [] {
      var v := violations[0];
      assert v in violations;
      assert v.TypeGrowth? ==> NamesType(violations, v.resource);
      assert v.BaselineReturn? ==> NamesTotal(violations);
    }
  }

  // ----- the verdict -----

  ghost predicate Drifts(c: Capture) {
    && c.baseline.Some? && c.cycles != []
    && (|| !WithinBaseline(c.baseline.value, c.cycles, c.toleranceHandles.GetOr(TOLERANCE))
        || (|c.cycles| >= MIN_CYCLES && IsMonotonicGrowth(Totals(c.cycles))))
  }

  /** Something the verdict needs was not seen, or the drive did less than its plan. */
  predicate Incomplete(c: Capture) {
    || c.lifecycleFailed || c.plan.None? || c.baseline.None? || |c.cycles| < MIN_CYCLES
    || CutShort(c) || SpanFallsShort(c)
  }

  ghost predicate Judges(v: Verdict, c: Capture) {
    v == if Drifts(c) then Drift else if Incomplete(c) then Inconclusive else Verified
  }

  /** The observations that are missing. */
  method MissingGaps(c: Capture) returns (gaps: seq<Gap>)
    ensures gaps == [] <==> !c.lifecycleFailed && c.plan.Some? && c.baseline.Some? && |c.cycles| >= MIN_CYCLES
    ensures Lifecycles in gaps <==> c.lifecycleFailed
    ensures PlanGap in gaps <==> c.plan.None?
    ensures BaselineGap in gaps <==> c.baseline.None?
    ensures Series in gaps <==> |c.cycles| < MIN_CYCLES
    ensures Span !in gaps
  {
    gaps := [];
    if c.lifecycleFailed {
      gaps := gaps + [Lifecycles];
    }
    if c.plan.None? {
      gaps := gaps + [PlanGap];
    }
    if c.baseline.None? {
      gaps := gaps + [BaselineGap];
    }
    if |c.cycles| < MIN_CYCLES {
      gaps := gaps + [Series];
    }
  }

  predicate CutShort(c: Capture) {
    || (c.plan.Some? && |c.cycles| < c.plan.value.cycles)
    || (c.lifecyclesCompleted.Some? && c.lifecyclesCompleted.value < |c.cycles|)
  }

  predicate SpanFallsShort(c: Capture) {
    c.spanMs.None? || (c.plan.Some? && c.spanMs.value < c.plan.value.durationMs)
  }

  /** Where the drive did less than its plan. */
  method ShortfallGaps(c: Capture) returns (gaps: seq<Gap>)
    ensures gaps == [] <==> !CutShort(c) && !SpanFallsShort(c)
    ensures Lifecycles in gaps <==> CutShort(c)
    ensures Span in gaps <==> SpanFallsShort(c)
    ensures forall g :: g in gaps ==> g.Lifecycles? || g.Span?
  {
    gaps := [];
    if c.plan.Some? && |c.cycles| < c.plan.value.cycles {
      gaps := gaps + [Lifecycles];
    }
    if c.lifecyclesCompleted.Some? && c.lifecyclesCompleted.value < |c.cycles| {
      gaps := gaps + [Lifecycles];
    }
    if c.spanMs.None? {
      gaps := gaps + [Span];
    } else if c.plan.Some? && c.spanMs.value < c.plan.value.durationMs {
      gaps := gaps + [Span];
    }
  }

  /** The questions this soak could not ask. */
  method FindGaps(c: Capture) returns (gaps: seq<Gap>)
    ensures gaps != [] <==> Incomplete(c)
    ensures PlanGap in gaps <==> c.plan.None?
    ensures BaselineGap in gaps <==> c.baseline.None?
    ensures Series in gaps <==> |c.cycles| < MIN_CYCLES
    ensures Span in gaps <==> SpanFallsShort(c)
    ensures Lifecycles in gaps <==> c.lifecycleFailed || CutShort(c)
  {
    var missing := MissingGaps(c);
    var shortfall := ShortfallGaps(c);
    gaps := missing + shortfall;
  }

  method ClassifyDaemonSoak(c: Capture) returns (r: Report)
    ensures Judges(r.verdict, c)
    ensures r.verdict.Drift? <==> r.violations != []
    ensures r.verdict.Inconclusive? <==> r.gaps != []
    ensures Monotonic in r.violations
       <==> c.baseline.Some? && |c.cycles| >= MIN_CYCLES && IsMonotonicGrowth(Totals(c.cycles))
    ensures forall v :: v in r.violations ==>
              if v.Monotonic? then |c.cycles| >= MIN_CYCLES && IsMonotonicGrowth(Totals(c.cycles))
              else c.baseline.Some? && IsGrowth(v, c.baseline.value, c.cycles, c.toleranceHandles.GetOr(TOLERANCE))
    ensures r.spannedMultiDay <==> c.spanMs.Some? && c.spanMs.value >= MULTI_DAY_MS
  {
    var tolerance := c.toleranceHandles.GetOr(TOLERANCE);
    var spannedMultiDay := c.spanMs.GetOr(0.0) >= MULTI_DAY_MS;
    var violations: seq<Violation> := [];
    if c.baseline.Some? && |c.cycles| > 0 {
      violations := FindGrowth(c.baseline.value, c.cycles, tolerance);
      if |c.cycles| >= MIN_CYCLES && IsMonotonicGrowth(Totals(c.cycles)) {
        violations := violations + [Monotonic];
      }
    }
    if |violations| > 0 {
      return Report(Drift, violations, [], spannedMultiDay);
    }
    var gaps := FindGaps(c);
    if |gaps| > 0 {
      return Report(Inconclusive, [], gaps, spannedMultiDay);
    }
    return Report(Verified, [], [], spannedMultiDay);
  }

  // ----- what the detectors catch -----

  lemma MonotonicExactly(cycles: seq<Sample>)
    requires |cycles| >= 2
    ensures !IsMonotonicGrowth(Totals(cycles))
       <==> || (exists i :: 1 <= i < |cycles| && cycles[i].total < cycles[i - 1].total)
            || cycles[|cycles| - 1].total <= cycles[0].total
  {
    var totals := Totals(cycles);
    assert forall i :: 0 <= i < |cycles| ==> totals[i] == cycles[i].total;
    assert (exists i :: 1 <= i < |cycles| && cycles[i].total < cycles[i - 1].total)
      <==> !forall i :: 1 <= i < |totals| ==> totals[i] >= totals[i - 1];
  }

  /** The resource types held at the baseline or at any reading. */
  lemma ResourcesExactly(baseline: Sample, cycles: seq<Sample>, r: string)
    ensures r in Resources(baseline, cycles)
       <==> r in baseline.byType || exists i :: 0 <= i < |cycles| && r in cycles[i].byType
  {
  }

  /** How far a reading's count of one type is over the baseline's; a type not held counts as none. */
  function OverBy(baseline: map<string, nat>, held: map<string, nat>, r: string): int {
    var now: int := if r in held then held[r] else 0;
    var before: int := if r in baseline then baseline[r] else 0;
    now - before
  }

  lemma WithinExactly(baseline: Sample, cycles: seq<Sample>, tolerance: int)
    ensures WithinBaseline(baseline, cycles, tolerance)
       <==> && (forall i :: 0 <= i < |cycles| ==> cycles[i].total - baseline.total <= tolerance)
            && (forall i, r :: 0 <= i < |cycles| && r in Resources(baseline, cycles) ==>
                  OverBy(baseline.byType, cycles[i].byType, r) <= tolerance)
  {
    assert forall i :: 0 <= i < |cycles| ==>
      (OverTotal(baseline, cycles[i], tolerance) <==> cycles[i].total - baseline.total > tolerance);
    assert forall i, r :: 0 <= i < |cycles| ==>
      (OverType(baseline, cycles[i], r, tolerance) <==> OverBy(baseline.byType, cycles[i].byType, r) > tolerance);
  }

  /** With a baseline and enough readings, the exact boundary of `drift`. */
  lemma DriftExactly(c: Capture, v: Verdict)
    requires c.baseline.Some? && |c.cycles| >= MIN_CYCLES && Judges(v, c)
    ensures v != Drift
       <==> && (forall i :: 0 <= i < |c.cycles| ==>
                  c.cycles[i].total - c.baseline.value.total <= c.toleranceHandles.GetOr(TOLERANCE))
            && (forall i, r :: 0 <= i < |c.cycles| && r in Resources(c.baseline.value, c.cycles) ==>
                  OverBy(c.baseline.value.byType, c.cycles[i].byType, r) <= c.toleranceHandles.GetOr(TOLERANCE))
            && ((exists i :: 1 <= i < |c.cycles| && c.cycles[i].total < c.cycles[i - 1].total)
                || c.cycles[|c.cycles| - 1].total <= c.cycles[0].total)
  {
    MonotonicExactly(c.cycles);
    WithinExactly(c.baseline.value, c.cycles, c.toleranceHandles.GetOr(TOLERANCE));
  }

  /** A reading that holds more of one type than the baseline did and the tolerance allows is drift. */
  lemma TypeLeakIsDrift(c: Capture, v: Verdict, i: nat, r: string)
    requires c.baseline.Some? && Judges(v, c) && i < |c.cycles| && r in c.cycles[i].byType
    requires OverBy(c.baseline.value.byType, c.cycles[i].byType, r) > c.toleranceHandles.GetOr(TOLERANCE)
    ensures v == Drift
  {
    ResourcesExactly(c.baseline.value, c.cycles, r);
    WithinExactly(c.baseline.value, c.cycles, c.toleranceHandles.GetOr(TOLERANCE));
  }

  /** How many whole periods of length `k` there are in `n` cycles. */
  function Periods(n: nat, k: nat): nat
    requires k > 0
  {
    if n < k then 0 else 1 + Periods(n - k, k)
  }

  lemma {:induction false} PeriodsRise(a: nat, b: nat, k: nat)
    requires k > 0 && a <= b
    ensures Periods(a, k) <= Periods(b, k)
  {
    if a >= k {
      PeriodsRise(a - k, b - k, k);
    }
  }

  lemma {:induction false} ManyPeriods(n: nat, k: nat, m: nat)
    requires k > 0 && n >= k * m
    ensures Periods(n, k) >= m
  {
    if m > 0 {
      assert k * m == k * (m - 1) + k;
      ManyPeriods(n - k, k, m - 1);
    }
  }

  /** One handle more every `k` cycles, `phase` cycles into the first period when the readings start. */
  ghost predicate LeaksEvery(cycles: seq<Sample>, base: int, k: nat, phase: nat)
    requires k > 0
  {
    forall i :: 0 <= i < |cycles| ==> cycles[i].total == base + Periods(i + 1 + phase, k)
  }

  lemma MonotonicIsDrift(c: Capture, v: Verdict)
    requires c.baseline.Some? && |c.cycles| >= MIN_CYCLES && Judges(v, c)
    requires c.cycles[|c.cycles| - 1].total > c.cycles[0].total
    requires forall i :: 1 <= i < |c.cycles| ==> c.cycles[i].total >= c.cycles[i - 1].total
    ensures v == Drift
  {
    assert IsMonotonicGrowth(Totals(c.cycles));
  }

  /** A slow leak over otherwise flat cycles is caught, tolerance or not, once one period has gone by. */
  lemma SlowLeakIsCaught(c: Capture, v: Verdict, base: int, k: nat, phase: nat)
    requires c.baseline.Some? && Judges(v, c) && k > 0 && phase < k
    requires LeaksEvery(c.cycles, base, k, phase)
    requires |c.cycles| >= MIN_CYCLES
    requires |c.cycles| > k || (|c.cycles| == k && phase != k - 1)
    ensures v == Drift
  {
    var n := |c.cycles|;
    forall i | 1 <= i < n
      ensures c.cycles[i].total >= c.cycles[i - 1].total
    {
      PeriodsRise(i + phase, i + 1 + phase, k);
    }
    PeriodsRise(1 + phase, n + phase, k);
    if n > k {
      PeriodsRise(1 + phase, n + phase - k, k);
    }
    assert Periods(n + phase, k) > Periods(1 + phase, k);
    MonotonicIsDrift(c, v);
  }

  /**
   * Over at least one period, the leak goes unseen in exactly one situation: there is one period of readings, its
   * one step came before the first of them, and that first step is within the tolerance.
   */
  lemma SlowLeakExactly(c: Capture, v: Verdict, base: int, k: nat, phase: nat)
    requires c.baseline.Some? && Judges(v, c) && k > 0 && phase < k
    requires LeaksEvery(c.cycles, base, k, phase)
    requires |c.cycles| >= MIN_CYCLES && |c.cycles| >= k
    ensures v != Drift
       <==> |c.cycles| == k && phase == k - 1
            && WithinBaseline(c.baseline.value, c.cycles, c.toleranceHandles.GetOr(TOLERANCE))
  {
    if |c.cycles| == k && phase == k - 1 {
      assert Periods(k + phase, k) == 1 && Periods(1 + phase, k) == 1;
      assert Totals(c.cycles)[k - 1] == Totals(c.cycles)[0];
    } else {
      SlowLeakIsCaught(c, v, base, k, phase);
    }
  }

  /**
   * One period alone is not always enough: a soak of one timer leaked every `k` cycles is verified, complete in every
   * other respect, when the one step of its `k` readings came just after the baseline.
   */
  lemma OnePeriodCanMiss(k: nat) returns (c: Capture)
    requires k >= MIN_CYCLES
    ensures |c.cycles| == k && LeaksEvery(c.cycles, 0, k, k - 1)
    ensures forall i :: 0 <= i < k ==> c.cycles[i].byType == map["Timeout" := c.cycles[i].total]
    ensures Complete(c, Plan(k, 1000.0), 0) && c.baseline == Some(Sample(0, 0, map[]))
    ensures Judges(Verified, c)
  {
    var flat := seq(k, i requires 0 <= i < k => Sample(i + 1, 1, map["Timeout" := 1]));
    var baseline := Sample(0, 0, map[]);
    c := Capture(Some(Plan(k, 1000.0)), Some(baseline), flat, Some(k), Some(1000.0), None, false);
    assert Totals(flat)[k - 1] == Totals(flat)[0];
    assert forall i, r :: 0 <= i < k ==> OverBy(baseline.byType, flat[i].byType, r) <= 1;
    WithinExactly(baseline, flat, TOLERANCE);
  }

  /**
   * Jitter of at most `d` handles hides a leak of one every `k` cycles for fewer than
   * `k * (tolerance + 1 + d)` cycles.
   */
  lemma LeakUnderJitterIsCaught(c: Capture, v: Verdict, k: nat, d: int, jitter: seq<int>)
    requires c.baseline.Some? && Judges(v, c) && k > 0 && d >= 0 && c.toleranceHandles.GetOr(TOLERANCE) >= 0
    requires |jitter| == |c.cycles| && forall i :: 0 <= i < |jitter| ==> -d <= jitter[i] <= d
    requires forall i :: 0 <= i < |c.cycles| ==>
               c.cycles[i].total == c.baseline.value.total + Periods(i + 1, k) + jitter[i]
    requires |c.cycles| >= k * (c.toleranceHandles.GetOr(TOLERANCE) + 1 + d)
    ensures v == Drift
  {
    var tolerance := c.toleranceHandles.GetOr(TOLERANCE);
    PeriodsNeeded(|c.cycles|, k, tolerance + 1 + d);
    LastIsOver(c, v, |c.cycles| - 1, tolerance);
  }

  lemma PeriodsNeeded(n: nat, k: nat, m: nat)
    requires k > 0 && m > 0 && n >= k * m
    ensures n > 0 && Periods(n, k) >= m
  {
    ManyPeriods(n, k, m);
    assert k * m >= m;
  }

  lemma LastIsOver(c: Capture, v: Verdict, i: nat, tolerance: int)
    requires c.baseline.Some? && Judges(v, c) && i < |c.cycles| && c.toleranceHandles.GetOr(TOLERANCE) == tolerance
    requires c.cycles[i].total - c.baseline.value.total > tolerance
    ensures v == Drift
  {
    assert OverTotal(c.baseline.value, c.cycles[i], tolerance);
  }

  // ----- the drive -----

  /** What was done with the bench so far: the readings taken, the lifecycles completed, the readings before each. */
  datatype Trace = Trace(readings: seq<Sample>, ran: seq<int>, ranAt: seq<nat>)

  predicate Orderly(t: Trace) {
    |t.ran| == |t.ranAt| && forall k :: 0 <= k < |t.ranAt| ==> t.ranAt[k] <= |t.readings|
  }

  /** `u` is `t` with more done: nothing is taken back, and new lifecycles come after the readings there were. */
  predicate Extends(t: Trace, u: Trace) {
    && t.readings <= u.readings && t.ran <= u.ran && t.ranAt <= u.ranAt
    && Orderly(t) && Orderly(u)
    && forall k :: |t.ran| <= k < |u.ran| ==> |t.readings| <= u.ranAt[k]
  }

  /**
   * What the drive is given: a clock that never goes back, a sleep that lasts at least as long as asked, a
   * sampler and a lifecycle, each of which may fail.
   */
  class Bench {
    var clock: real
    ghost var trace: Trace
    ghost var sleeps: nat
    ghost var samplerFailed: bool
    ghost var lifecycleFailed: bool

    ghost predicate Valid()
      reads this
    {
      Orderly(trace)
    }

    constructor ()
      ensures Valid() && trace == Trace([], [], []) && sleeps == 0 && !samplerFailed && !lifecycleFailed
    {
      clock, trace, sleeps, samplerFailed, lifecycleFailed := 0.0, Trace([], [], []), 0, false, false;
    }

    method Now() returns (t: real)
      modifies this`clock
      ensures t == clock >= old(clock)
    {
      var passed: real := *;
      clock := clock + if passed > 0.0 then passed else 0.0;
      t := clock;
    }

    method Sleep(ms: real)
      requires ms >= 0.0
      modifies this`clock, this`sleeps
      ensures clock >= old(clock) + ms && sleeps == old(sleeps) + 1
    {
      var late: real := *;
      clock := clock + ms + if late > 0.0 then late else 0.0;
      sleeps := sleeps + 1;
    }

    method TakeSample(cycle: int) returns (r: Option<Sample>)
      requires Valid()
      modifies this`clock, this`trace, this`samplerFailed
      ensures Valid() && clock >= old(clock)
      ensures samplerFailed == (old(samplerFailed) || r.None?)
      ensures r.Some? ==> r.value.cycle == cycle
      ensures trace == old(trace).(readings := old(trace).readings + if r.Some? then [r.value] else [])
    {
      var t := Now();
      var outcome: Option<Sample> := *;
      r := if outcome.Some? then Some(outcome.value.(cycle := cycle)) else None;
      trace := trace.(readings := trace.readings + if r.Some? then [r.value] else []);
      samplerFailed := samplerFailed || r.None?;
    }

    method RunLifecycle(cycle: int) returns (ok: bool)
      requires Valid()
      modifies this`clock, this`trace, this`lifecycleFailed
      ensures Valid() && clock >= old(clock)
      ensures lifecycleFailed == (old(lifecycleFailed) || !ok)
      ensures trace == if ok then Ran(old(trace), cycle) else old(trace)
    {
      var t := Now();
      ok := *;
      trace := if ok then Ran(trace, cycle) else trace;
      lifecycleFailed := lifecycleFailed || !ok;
    }
  }

  function Ran(t: Trace, cycle: int): Trace {
    Trace(t.readings, t.ran + [cycle], t.ranAt + [|t.readings|])
  }

  /** The last `n` readings agree on the total, and all of them were taken from `from` on. */
  predicate Steady(readings: seq<Sample>, from: nat, n: nat) {
    from + n <= |readings|
    && forall i :: |readings| - n <= i < |readings| ==> readings[i].total == readings[|readings| - 1].total
  }

  /** One settle: the readings it took, from the first to the last, and when it began and ended. */
  datatype Settle = Settle(from: nat, last: nat, began: real, ended: real)

  /** `s` is the reading the settle ended on. */
  predicate Took(readings: seq<Sample>, st: Settle, s: Sample) {
    st.from <= st.last < |readings| && readings[st.last] == s
  }

  /** It ended on three of its own readings that agree, or ran out of time. */
  predicate Finished(readings: seq<Sample>, st: Settle)
    requires st.last < |readings|
  {
    Steady(readings[..st.last + 1], st.from, STABLE_READINGS) || st.ended - st.began >= SETTLE_TIMEOUT_MS
  }

  /** Poll until three readings in a row agree or the timeout passes: at most two hundred and fifty sleeps. */
  method SettleSample(bench: Bench, cycle: int) returns (r: Option<Sample>, ghost st: Settle)
    requires bench.Valid()
    modifies bench`clock, bench`trace, bench`sleeps, bench`samplerFailed
    ensures bench.Valid() && Extends(old(bench.trace), bench.trace) && bench.trace.ran == old(bench.trace).ran
    ensures bench.clock >= old(bench.clock) && bench.sleeps <= old(bench.sleeps) + 250
    ensures old(bench.samplerFailed) ==> bench.samplerFailed
    ensures r.None? ==> bench.samplerFailed && bench.trace == old(bench.trace)
    ensures r.Some? ==>
              && r.value.cycle == cycle && Took(bench.trace.readings, st, r.value)
              && st.from == |old(bench.trace).readings| && st.last + 1 == |bench.trace.readings|
              && old(bench.clock) <= st.began && st.ended == bench.clock
              && (bench.samplerFailed || Finished(bench.trace.readings, st))
  {
    ghost var from := |bench.trace.readings|;
    var start := bench.Now();
    var deadline := start + SETTLE_TIMEOUT_MS;
    var stable := 1;
    r := bench.TakeSample(cycle);
    st := Settle(from, from, start, bench.clock);
    if r.None? {
      return;
    }
    ghost var polls := 0;
    while stable < STABLE_READINGS
      invariant bench.Valid() && Extends(old(bench.trace), bench.trace) && bench.trace.ran == old(bench.trace).ran
      invariant r.Some? && r.value.cycle == cycle && from < |bench.trace.readings|
      invariant r.value == bench.trace.readings[|bench.trace.readings| - 1]
      invariant 1 <= stable <= STABLE_READINGS && Steady(bench.trace.readings, from, stable)
      invariant bench.clock >= start + SETTLE_POLL_MS * polls as real && bench.clock >= start >= old(bench.clock)
      invariant bench.sleeps == old(bench.sleeps) + polls && polls <= 250
      invariant old(bench.samplerFailed) ==> bench.samplerFailed
      invariant st == Settle(from, |bench.trace.readings| - 1, start, bench.clock)
      decreases 250 - polls
    {
      var now := bench.Now();
      st := st.(ended := bench.clock);
      if now >= deadline {
        return;
      }
      bench.Sleep(SETTLE_POLL_MS);
      polls := polls + 1;
      var next := bench.TakeSample(cycle);
      if next.None? {
        st := st.(ended := bench.clock);
        return;
      }
      stable := if next.value.total == r.value.total then stable + 1 else 1;
      r := next;
      st := Settle(from, |bench.trace.readings| - 1, start, bench.clock);
    }
    WholePrefix(bench.trace.readings);
  }

  /** What the drive captured of a soak in which nothing failed. */
  predicate Complete(c: Capture, plan: Plan, warmupCycles: nat) {
    && c.plan == Some(plan) && c.baseline.Some? && !c.lifecycleFailed
    && |c.cycles| == plan.cycles
    && (forall i :: 0 <= i < |c.cycles| ==> c.cycles[i].cycle == i + 1)
    && c.lifecyclesCompleted == Some(warmupCycles + plan.cycles)
    && c.spanMs.Some? && c.spanMs.value >= plan.durationMs
  }

  /** When cycle `n` is due. */
  function DueAt(startedAt: real, interval: real, n: int): real {
    startedAt + interval * n as real
  }

  function Interval(plan: Plan): real {
    if plan.cycles > 0 then plan.durationMs / plan.cycles as real else 0.0
  }

  lemma LastIsDueAtTheEnd(startedAt: real, plan: Plan)
    requires plan.cycles > 0
    ensures DueAt(startedAt, Interval(plan), plan.cycles) == startedAt + plan.durationMs
  {
  }

  /** The measured part of a drive: the lifecycles before it, when it started, and its pace. */
  datatype Pace = Pace(warmups: nat, startedAt: real, interval: real)

  /**
   * Reading `s` was really taken: it is the last of its own settle, which began once the previous cycle's slot was
   * over, after the lifecycle of the same cycle had completed and before that of the next.
   */
  predicate CycleTraced(t: Trace, p: Pace, st: Settle, s: Sample) {
    && Took(t.readings, st, s) && s.cycle >= 1
    && st.began >= (if s.cycle == 1 then p.startedAt else DueAt(p.startedAt, p.interval, s.cycle - 1))
    && var run := p.warmups + s.cycle - 1;
       && run < |t.ran| == |t.ranAt|
       && t.ran[run] == s.cycle && t.ranAt[run] <= st.from
       && (run + 1 < |t.ran| ==> st.last < t.ranAt[run + 1])
  }

  /** The settles took every reading between these two points, each its own run of them. */
  predicate Tiles(settles: seq<Settle>, from: nat, to: nat) {
    && (forall i :: 0 <= i < |settles| ==> settles[i].from == if i == 0 then from else settles[i - 1].last + 1)
    && to == if settles == [] then from else settles[|settles| - 1].last + 1
  }

  lemma TilesNext(settles: seq<Settle>, from: nat, to: nat, st: Settle)
    requires Tiles(settles, from, to) && st.from == to
    ensures Tiles(settles + [st], from, st.last + 1)
  {
  }

  /** Every captured cycle was really taken, in order. */
  predicate Traced(t: Trace, p: Pace, settles: seq<Settle>, cycles: seq<Sample>) {
    && |settles| == |cycles|
    && (forall i :: 0 <= i < |cycles| ==> CycleTraced(t, p, settles[i], cycles[i]))
    && (forall i, j :: 0 <= i < j < |settles| ==> settles[i].last < settles[j].from)
  }

  predicate AllFinished(readings: seq<Sample>, settles: seq<Settle>) {
    forall i :: 0 <= i < |settles| ==> settles[i].last < |readings| && Finished(readings, settles[i])
  }

  lemma ExtendsOnward(t: Trace, u: Trace, v: Trace)
    requires Extends(t, u) && Extends(u, v)
    ensures Extends(t, v)
  {
  }

  lemma RanExtends(t: Trace, cycle: int)
    requires Orderly(t)
    ensures Extends(t, Ran(t, cycle))
  {
  }

  lemma CycleStaysTraced(t: Trace, u: Trace, p: Pace, st: Settle, s: Sample)
    requires CycleTraced(t, p, st, s) && Extends(t, u)
    ensures CycleTraced(u, p, st, s)
  {
  }

  lemma StaysTraced(t: Trace, u: Trace, p: Pace, settles: seq<Settle>, cycles: seq<Sample>)
    requires Traced(t, p, settles, cycles) && Extends(t, u)
    ensures Traced(u, p, settles, cycles)
  {
    forall i | 0 <= i < |cycles|
      ensures CycleTraced(u, p, settles[i], cycles[i])
    {
      CycleStaysTraced(t, u, p, settles[i], cycles[i]);
    }
  }

  lemma StaysFinished(readings: seq<Sample>, more: seq<Sample>, settles: seq<Settle>)
    requires AllFinished(readings, settles) && readings <= more
    ensures AllFinished(more, settles)
  {
    forall i | 0 <= i < |settles|
      ensures settles[i].last < |more| && Finished(more, settles[i])
    {
      assert more[..settles[i].last + 1] == readings[..settles[i].last + 1];
    }
  }

  /** Since `t`, the captured cycles were taken one after the other, and no reading belongs to none of them. */
  predicate Recorded(t: Trace, u: Trace, p: Pace, settles: seq<Settle>, cycles: seq<Sample>) {
    && Extends(t, u) && Traced(u, p, settles, cycles) && Tiles(settles, |t.readings|, |u.readings|)
    && forall i :: 0 <= i < |settles| ==> |t.readings| <= settles[i].from
  }

  lemma RecordedStays(t: Trace, u: Trace, w: Trace, p: Pace, settles: seq<Settle>, cycles: seq<Sample>)
    requires Recorded(t, u, p, settles, cycles) && Extends(u, w) && w.readings == u.readings
    ensures Recorded(t, w, p, settles, cycles)
  {
    ExtendsOnward(t, u, w);
    StaysTraced(u, w, p, settles, cycles);
  }

  /** One more captured cycle. */
  lemma RecordedNext(
    t: Trace, u: Trace, w: Trace, p: Pace, settles: seq<Settle>, cycles: seq<Sample>, st: Settle, s: Sample)
    requires Recorded(t, u, p, settles, cycles) && Extends(u, w) && CycleTraced(w, p, st, s)
    requires st.from == |u.readings| && st.last + 1 == |w.readings|
    ensures Recorded(t, w, p, settles + [st], cycles + [s])
  {
    ExtendsOnward(t, u, w);
    AllBefore(u, p, settles, cycles);
    StaysTraced(u, w, p, settles, cycles);
    TilesNext(settles, |t.readings|, |u.readings|, st);
  }

  /** A reading far enough over the baseline is drift. */
  lemma OverIsDrift(c: Capture, v: Verdict, i: nat)
    requires Judges(v, c) && c.baseline.Some? && c.toleranceHandles == None && i < |c.cycles|
    requires c.cycles[i].total - c.baseline.value.total > TOLERANCE
    ensures v == Drift
  {
    LastIsOver(c, v, i, TOLERANCE);
  }

  /** The baseline was really taken: after every warm-up lifecycle, before every measured one and its reading. */
  predicate BaselineTraced(t: Trace, p: Pace, base: Settle, s: Sample, settles: seq<Settle>) {
    && Took(t.readings, base, s) && base.ended <= p.startedAt
    && p.warmups <= |t.ran| == |t.ranAt|
    && (forall k :: 0 <= k < p.warmups ==> t.ranAt[k] <= base.from)
    && (forall k :: p.warmups <= k < |t.ran| ==> base.last < t.ranAt[k])
    && (forall i :: 0 <= i < |settles| ==> base.last < settles[i].from)
  }

  lemma BaselineStays(t: Trace, u: Trace, p: Pace, base: Settle, s: Sample, settles: seq<Settle>)
    requires Extends(t, u) && Took(t.readings, base, s) && base.ended <= p.startedAt
    requires |t.ran| == p.warmups && forall k :: 0 <= k < p.warmups ==> t.ranAt[k] <= base.from
    requires forall i :: 0 <= i < |settles| ==> |t.readings| <= settles[i].from
    ensures BaselineTraced(u, p, base, s, settles)
    ensures Finished(t.readings, base) ==> Finished(u.readings, base)
  {
    assert u.readings[..base.last + 1] == t.readings[..base.last + 1];
  }

  lemma DriftIsSeen(readings: seq<Sample>, base: Settle, settles: seq<Settle>, c: Capture, v: Verdict)
    requires Judges(v, c) && c.baseline.Some? && c.toleranceHandles == None
    requires Took(readings, base, c.baseline.value) && |settles| == |c.cycles|
    requires forall i :: 0 <= i < |settles| ==> Took(readings, settles[i], c.cycles[i])
    ensures forall i :: 0 <= i < |settles| && OverBaseline(readings, base, settles[i]) ==> v == Drift
  {
    forall i | 0 <= i < |settles| && OverBaseline(readings, base, settles[i])
      ensures v == Drift
    {
      OverIsDrift(c, v, i);
    }
  }

  /** The reading a settle ended on is over the one the baseline's ended on by more than the tolerance. */
  predicate OverBaseline(readings: seq<Sample>, base: Settle, st: Settle) {
    && base.last < |readings| && st.last < |readings|
    && readings[st.last].total - readings[base.last].total > TOLERANCE
  }

  function Warmups(n: nat): seq<int> {
    seq(n, k => -(k + 1))
  }

  /** The warm-up lifecycles, none of them measured. */
  method WarmUp(bench: Bench, warmupCycles: nat) returns (ok: bool)
    requires bench.Valid() && !bench.lifecycleFailed
    modifies bench`clock, bench`trace, bench`lifecycleFailed
    ensures bench.Valid() && Extends(old(bench.trace), bench.trace) && bench.trace.readings == old(bench.trace).readings
    ensures bench.clock >= old(bench.clock)
    ensures ok <==> !bench.lifecycleFailed
    ensures ok ==> bench.trace.ran == old(bench.trace).ran + Warmups(warmupCycles)
  {
    for warm := 0 to warmupCycles
      invariant bench.Valid() && !bench.lifecycleFailed && bench.clock >= old(bench.clock)
      invariant Extends(old(bench.trace), bench.trace) && bench.trace.readings == old(bench.trace).readings
      invariant bench.trace.ran == old(bench.trace).ran + Warmups(warm)
    {
      assert Warmups(warm + 1) == Warmups(warm) + [-(warm + 1)];
      ok := bench.RunLifecycle(-(warm + 1));
      if !ok {
        return;
      }
    }
    return true;
  }

  /** One measured cycle: its lifecycle, its settled reading, and the rest of its slot. */
  method MeasureCycle(bench: Bench, cycle: int, startedAt: real, interval: real, ghost p: Pace)
    returns (ok: bool, sample: Option<Sample>, ghost st: Settle)
    requires bench.Valid() && cycle >= 1 && p.startedAt == startedAt && p.interval == interval
    requires |bench.trace.ran| == p.warmups + cycle - 1
    requires bench.clock >= if cycle == 1 then startedAt else DueAt(startedAt, interval, cycle - 1)
    modifies bench
    ensures bench.Valid() && Extends(old(bench.trace), bench.trace) && bench.clock >= old(bench.clock)
    ensures bench.lifecycleFailed == (old(bench.lifecycleFailed) || !ok)
    ensures bench.trace.ran == old(bench.trace).ran + if ok then [cycle] else []
    ensures old(bench.samplerFailed) ==> bench.samplerFailed
    ensures !ok ==> sample.None? && bench.samplerFailed == old(bench.samplerFailed)
    ensures ok ==> bench.clock >= DueAt(startedAt, interval, cycle) && (sample.None? ==> bench.samplerFailed)
    ensures bench.sleeps <= old(bench.sleeps) + 251
    ensures sample.None? ==> bench.trace.readings == old(bench.trace).readings
    ensures sample.Some? ==>
              && sample.value.cycle == cycle && CycleTraced(bench.trace, p, st, sample.value)
              && st.from == |old(bench.trace).readings| && st.last + 1 == |bench.trace.readings|
              && (bench.samplerFailed || Finished(bench.trace.readings, st))
  {
    sample, st := None, Settle(0, 0, 0.0, 0.0);
    RanExtends(bench.trace, cycle);
    ok := bench.RunLifecycle(cycle);
    if !ok {
      return;
    }
    ghost var ran := bench.trace;
    sample, st := SettleSample(bench, cycle);
    ExtendsOnward(old(bench.trace), ran, bench.trace);
    var dueAt := DueAt(startedAt, interval, cycle);
    var now := bench.Now();
    if dueAt - now > 0.0 {
      bench.Sleep(dueAt - now);
    }
  }

  /** The measured cycles, until the plan is done or a lifecycle fails. */
  method MeasureCycles(bench: Bench, plan: Plan, startedAt: real, interval: real, ghost p: Pace)
    returns (cycles: seq<Sample>, completed: nat, failed: bool, ghost settles: seq<Settle>)
    requires bench.Valid() && !bench.lifecycleFailed && bench.clock >= startedAt
    requires p.startedAt == startedAt && p.interval == interval && |bench.trace.ran| == p.warmups
    modifies bench
    ensures bench.Valid() && Recorded(old(bench.trace), bench.trace, p, settles, cycles) && bench.clock >= startedAt
    ensures failed == bench.lifecycleFailed && (old(bench.samplerFailed) ==> bench.samplerFailed)
    ensures |cycles| <= completed <= plan.cycles && |bench.trace.ran| == p.warmups + completed
    ensures bench.sleeps <= old(bench.sleeps) + 251 * plan.cycles
    ensures !failed ==>
              && completed == plan.cycles
              && (plan.cycles > 0 ==> bench.clock >= DueAt(startedAt, interval, plan.cycles))
    ensures !bench.samplerFailed ==>
              |cycles| == completed && forall i :: 0 <= i < |cycles| ==> cycles[i].cycle == i + 1
    ensures !bench.samplerFailed ==> AllFinished(bench.trace.readings, settles)
  {
    cycles, completed, failed, settles := [], 0, false, [];
    var cycle := 1;
    while cycle <= plan.cycles
      invariant bench.Valid() && 1 <= cycle <= plan.cycles + 1 && failed == bench.lifecycleFailed == false
      invariant completed == cycle - 1 && |cycles| <= completed && |bench.trace.ran| == p.warmups + completed
      invariant old(bench.samplerFailed) ==> bench.samplerFailed
      invariant !bench.samplerFailed ==>
                  |cycles| == completed && forall i :: 0 <= i < |cycles| ==> cycles[i].cycle == i + 1
      invariant bench.clock >= startedAt
      invariant cycle > 1 ==> bench.clock >= DueAt(startedAt, interval, cycle - 1)
      invariant bench.sleeps <= old(bench.sleeps) + 251 * (cycle - 1)
      invariant Recorded(old(bench.trace), bench.trace, p, settles, cycles)
      invariant !bench.samplerFailed ==> AllFinished(bench.trace.readings, settles)
    {
      ghost var before := bench.trace;
      var ok, sample;
      ghost var st;
      ok, sample, st := MeasureCycle(bench, cycle, startedAt, interval, p);
      if !bench.samplerFailed {
        StaysFinished(before.readings, bench.trace.readings, settles);
      }
      if sample.Some? {
        RecordedNext(old(bench.trace), before, bench.trace, p, settles, cycles, st, sample.value);
      } else {
        RecordedStays(old(bench.trace), before, bench.trace, p, settles, cycles);
      }
      if !ok {
        failed := true;
        break;
      }
      completed := completed + 1;
      if sample.Some? {
        cycles, settles := cycles + [sample.value], settles + [st];
      }
      cycle := cycle + 1;
    }
  }

  lemma AllBefore(t: Trace, p: Pace, settles: seq<Settle>, cycles: seq<Sample>)
    requires Traced(t, p, settles, cycles)
    ensures forall i :: 0 <= i < |settles| ==> settles[i].last < |t.readings|
  {
    assert forall i :: 0 <= i < |settles| ==> CycleTraced(t, p, settles[i], cycles[i]);
  }

  /** Every reading taken since `was` belongs to the settle of the baseline or of a captured cycle. */
  predicate AllReadings(was: Trace, t: Trace, base: Settle, settles: seq<Settle>, c: Capture) {
    && (c.baseline.Some? ==> base.from == |was.readings|)
    && Tiles(settles, if c.baseline.Some? then base.last + 1 else |was.readings|, |t.readings|)
  }

  /** What a drive leaves behind, and what its verdict rests on. */
  ghost predicate RestsOnReadings(
    was: Trace, t: Trace, p: Pace, base: Settle, settles: seq<Settle>, c: Capture, v: Verdict)
  {
    && Traced(t, p, settles, c.cycles) && AllReadings(was, t, base, settles, c)
    && (c.baseline.Some? ==>
          && BaselineTraced(t, p, base, c.baseline.value, settles)
          && forall i :: 0 <= i < |settles| && OverBaseline(t.readings, base, settles[i]) ==> v == Drift)
  }

  /** The baseline was taken as the only settle since `was`, and the soak starts after it. */
  predicate Opened(was: Trace, t: Trace, base: Settle, baseline: Option<Sample>, p: Pace) {
    && Extends(was, t) && t.ran == was.ran && |t.ran| == p.warmups
    && match baseline
       case None => t.readings == was.readings
       case Some(s) =>
         && Took(t.readings, base, s) && base.ended <= p.startedAt
         && base.from == |was.readings| && base.last + 1 == |t.readings|
  }

  lemma Rests(
    was: Trace, t: Trace, u: Trace, p: Pace, base: Settle, settles: seq<Settle>, c: Capture, v: Verdict)
    requires Recorded(t, u, p, settles, c.cycles) && Judges(v, c) && c.toleranceHandles == None
    requires Opened(was, t, base, c.baseline, p)
    ensures RestsOnReadings(was, u, p, base, settles, c, v)
    ensures c.baseline.Some? && Finished(t.readings, base) ==> Finished(u.readings, base)
  {
    if c.baseline.Some? {
      assert t.ranAt == was.ranAt;
      BaselineStays(t, u, p, base, c.baseline.value, settles);
      assert forall i :: 0 <= i < |settles| ==> CycleTraced(u, p, settles[i], c.cycles[i]);
      DriftIsSeen(u.readings, base, settles, c, v);
    }
  }

  /** The baseline's settled reading, and when the measured soak starts. */
  method TakeBaseline(bench: Bench) returns (baseline: Option<Sample>, startedAt: real, ghost base: Settle)
    requires bench.Valid() && !bench.samplerFailed
    modifies bench`clock, bench`trace, bench`sleeps, bench`samplerFailed
    ensures bench.Valid() && startedAt == bench.clock >= old(bench.clock)
    ensures forall interval ::
              Opened(old(bench.trace), bench.trace, base, baseline, Pace(|bench.trace.ran|, startedAt, interval))
    ensures baseline.None? ==> bench.samplerFailed
    ensures baseline.Some? && !bench.samplerFailed ==> Finished(bench.trace.readings, base)
    ensures bench.sleeps <= old(bench.sleeps) + 250
  {
    baseline, base := SettleSample(bench, 0);
    startedAt := bench.Now();
  }

  /** Baseline and measured cycles of a drive whose warm-up is done. */
  method DriveMeasured(bench: Bench, plan: Plan, warmupCycles: nat)
    returns (capture: Capture, ghost seen: Trace, ghost base: Settle, ghost p: Pace, ghost settles: seq<Settle>)
    requires bench.Valid() && !bench.samplerFailed && !bench.lifecycleFailed
    modifies bench
    ensures capture.plan == Some(plan) && capture.toleranceHandles == None
    ensures bench.lifecycleFailed == capture.lifecycleFailed && old(bench.trace).ran <= bench.trace.ran
    ensures match capture.lifecyclesCompleted
            case None => false
            case Some(n) =>
              && warmupCycles + |capture.cycles| <= n <= warmupCycles + plan.cycles
              && |bench.trace.ran| + warmupCycles == |old(bench.trace).ran| + n
    ensures bench.sleeps <= old(bench.sleeps) + 250 + 251 * plan.cycles
    ensures !bench.lifecycleFailed && !bench.samplerFailed && plan.cycles > 0 ==> Complete(capture, plan, warmupCycles)
    ensures p.warmups == |old(bench.trace).ran| && p.interval == Interval(plan)
    ensures Opened(old(bench.trace), seen, base, capture.baseline, p)
    ensures Recorded(seen, bench.trace, p, settles, capture.cycles)
    ensures old(bench.clock) <= p.startedAt && capture.spanMs == Some(bench.clock - p.startedAt)
    ensures !bench.samplerFailed && capture.baseline.Some? ==>
              Finished(seen.readings, base) && AllFinished(bench.trace.readings, settles)
  {
    var baseline, startedAt;
    baseline, startedAt, base := TakeBaseline(bench);
    var interval := Interval(plan);
    p, seen := Pace(|bench.trace.ran|, startedAt, interval), bench.trace;
    var cycles, completed, failed;
    cycles, completed, failed, settles := MeasureCycles(bench, plan, startedAt, interval, p);
    if plan.cycles > 0 {
      LastIsDueAtTheEnd(startedAt, plan);
    }
    var endedAt := bench.Now();
    var span := if endedAt - startedAt > 0.0 then endedAt - startedAt else 0.0;
    capture := Capture(Some(plan), baseline, cycles, Some(warmupCycles + completed), Some(span), None, failed);
  }

  lemma CompleteIsJudged(c: Capture, plan: Plan, warmupCycles: nat, v: Verdict)
    requires Judges(v, c)
    ensures Complete(c, plan, warmupCycles) && plan.cycles >= MIN_CYCLES ==> v != Inconclusive
    ensures c.lifecycleFailed ==> v != Verified
  {
  }

  method DriveDaemonSoak(bench: Bench, plan: Plan, warmupCycles: nat)
    returns (report: Report, capture: Capture, ghost base: Settle, ghost p: Pace, ghost settles: seq<Settle>)
    requires bench.Valid() && !bench.samplerFailed && !bench.lifecycleFailed
    modifies bench
    ensures Judges(report.verdict, capture)
    ensures capture.plan == Some(plan) && |capture.cycles| <= plan.cycles
    ensures bench.lifecycleFailed <==> capture.lifecycleFailed
    ensures capture.lifecyclesCompleted.Some? ==>
              && |capture.cycles| <= capture.lifecyclesCompleted.value
              && |bench.trace.ran| == |old(bench.trace).ran| + capture.lifecyclesCompleted.value
              && old(bench.trace).ran + Warmups(warmupCycles) <= bench.trace.ran
    ensures bench.sleeps <= old(bench.sleeps) + 250 + 251 * plan.cycles
    ensures !bench.lifecycleFailed && !bench.samplerFailed && plan.cycles > 0 ==> Complete(capture, plan, warmupCycles)
    ensures !bench.lifecycleFailed && !bench.samplerFailed && plan.cycles >= MIN_CYCLES ==>
              !report.verdict.Inconclusive?
    ensures bench.lifecycleFailed ==> !report.verdict.Verified?
    ensures p.warmups == |old(bench.trace).ran| + warmupCycles && p.interval == Interval(plan)
    ensures RestsOnReadings(old(bench.trace), bench.trace, p, base, settles, capture, report.verdict)
    ensures capture.lifecyclesCompleted.Some? ==>
              old(bench.clock) <= p.startedAt && capture.spanMs == Some(bench.clock - p.startedAt)
    ensures capture.lifecyclesCompleted.None? ==>
              bench.lifecycleFailed && capture == Capture(Some(plan), None, [], None, Some(0.0), None, true)
    ensures !bench.samplerFailed && capture.baseline.Some? ==>
              Finished(bench.trace.readings, base) && AllFinished(bench.trace.readings, settles)
  {
    var warm := WarmUp(bench, warmupCycles);
    if warm {
      ghost var warmed, seen := bench.trace, bench.trace;
      capture, seen, base, p, settles := DriveMeasured(bench, plan, warmupCycles);
      report := ClassifyDaemonSoak(capture);
      Rests(warmed, seen, bench.trace, p, base, settles, capture, report.verdict);
    } else {
      base, settles, p := Settle(0, 0, 0.0, 0.0), [], Pace(|old(bench.trace).ran| + warmupCycles, 0.0, Interval(plan));
      capture := Capture(Some(plan), None, [], None, Some(0.0), None, true);
      report := ClassifyDaemonSoak(capture);
    }
    CompleteIsJudged(capture, plan, warmupCycles, report.verdict);
  }
}
