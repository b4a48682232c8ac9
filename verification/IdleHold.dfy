/**
 * The polled liveness monitor: a drop is recorded when a poll finds that nothing has arrived for longer than the
 * deadline. Time is a rational; `arrived(t)` is how many frames have arrived by time `t`.
 */
module IdleHold {
  import opened Wrappers

  /** One poll: when it ran, how many frames it found, and whether a liveness frame was among them. */
  datatype Poll = Poll(at: real, frames: nat, liveness: bool)

  datatype Watch = Watch(seen: nat, lastFrameAt: real, drops: nat, firstLiveness: Option<real>)

  function Observe(w: Watch, p: Poll, openedAt: real, timeout: real): Watch {
    if p.frames > w.seen then
      Watch(p.frames, p.at, w.drops,
            if w.firstLiveness.None? && p.liveness then Some(p.at - openedAt) else w.firstLiveness)
    else if p.at - w.lastFrameAt > timeout then w.(drops := w.drops + 1, lastFrameAt := p.at)
    else w
  }

  function Start(openedAt: real): Watch {
    Watch(0, openedAt, 0, None)
  }

  /** The watch after the first `k` polls. */
  function After(ps: seq<Poll>, k: nat, openedAt: real, timeout: real): Watch
    requires k <= |ps|
  {
    if k == 0 then Start(openedAt) else Observe(After(ps, k - 1, openedAt, timeout), ps[k - 1], openedAt, timeout)
  }

  class LivenessMonitor {
    const openedAt: real
    const timeout: real
    var lastSeenCount: nat
    var lastFrameAt: real
    var drops: nat
    var firstLiveness: Option<real>

    constructor (openedAt: real, timeout: real)
      ensures this.openedAt == openedAt && this.timeout == timeout
      ensures Snapshot() == Start(openedAt)
    {
      this.openedAt, this.timeout := openedAt, timeout;
      lastSeenCount, lastFrameAt, drops, firstLiveness := 0, openedAt, 0, None;
    }

    ghost function Snapshot(): Watch
      reads this
    {
      Watch(lastSeenCount, lastFrameAt, drops, firstLiveness)
    }

    /** The interval callback. */
    method OnPoll(p: Poll)
      modifies this
      ensures Snapshot() == Observe(old(Snapshot()), p, openedAt, timeout)
    {
      if p.frames > lastSeenCount {
        lastSeenCount := p.frames;
        lastFrameAt := p.at;
        if firstLiveness.None? && p.liveness {
          firstLiveness := Some(p.at - openedAt);
        }
      } else if p.at - lastFrameAt > timeout {
        drops := drops + 1;
        lastFrameAt := p.at;
      }
    }
  }

  // ----- faithful polling -----

  ghost predicate Monotone(arrived: real -> nat) {
    forall x, y :: x <= y ==> arrived(x) <= arrived(y)
  }

  /** Polls in order of time from the opening on, each reading the true count. */
  ghost predicate Faithful(ps: seq<Poll>, arrived: real -> nat, openedAt: real) {
    && Monotone(arrived)
    && (forall i :: 0 <= i < |ps| ==> openedAt <= ps[i].at && ps[i].frames == arrived(ps[i].at))
    && (forall i :: 0 < i < |ps| ==> ps[i - 1].at <= ps[i].at)
  }

  /** No more than the period between polls. */
  predicate Every(ps: seq<Poll>, period: real) {
    forall i :: 0 < i < |ps| ==> ps[i].at - ps[i - 1].at <= period
  }

  /** No frame arrived after `a` and up to `b`. */
  ghost predicate FrameFree(arrived: real -> nat, a: real, b: real) {
    a <= b && arrived(a) == arrived(b)
  }

  ghost predicate DropsAt(ps: seq<Poll>, k: nat, openedAt: real, timeout: real)
    requires k < |ps|
  {
    After(ps, k + 1, openedAt, timeout).drops == After(ps, k, openedAt, timeout).drops + 1
  }

  lemma {:induction false} PollsAreOrdered(ps: seq<Poll>, arrived: real -> nat, openedAt: real, i: nat, j: nat)
    requires Faithful(ps, arrived, openedAt) && i <= j < |ps|
    ensures ps[i].at <= ps[j].at
    decreases j
  {
    if i < j {
      PollsAreOrdered(ps, arrived, openedAt, i, j - 1);
    }
  }

  /** The watch holds the true count, and nothing arrived since `lastFrameAt`. */
  lemma {:induction false} WatchIsTrue(ps: seq<Poll>, arrived: real -> nat, openedAt: real, timeout: real, k: nat)
    requires Faithful(ps, arrived, openedAt) && 0 < k <= |ps|
    ensures var w := After(ps, k, openedAt, timeout);
            && w.seen == ps[k - 1].frames
            && openedAt <= w.lastFrameAt && FrameFree(arrived, w.lastFrameAt, ps[k - 1].at)
    decreases k
  {
    assert ps[k - 1].frames == arrived(ps[k - 1].at);
    if k == 1 {
      assert After(ps, 0, openedAt, timeout) == Start(openedAt);
      assert arrived(openedAt) <= arrived(ps[0].at);
    } else {
      WatchIsTrue(ps, arrived, openedAt, timeout, k - 1);
      assert ps[k - 2].at <= ps[k - 1].at;
      assert arrived(ps[k - 2].at) <= arrived(ps[k - 1].at);
    }
  }

  /** Sound: a recorded drop means a real silence longer than the deadline, ending at that poll. */
  lemma DropsAreReal(ps: seq<Poll>, arrived: real -> nat, openedAt: real, timeout: real, k: nat)
    requires Faithful(ps, arrived, openedAt) && k < |ps| && DropsAt(ps, k, openedAt, timeout)
    ensures var from := After(ps, k, openedAt, timeout).lastFrameAt;
            FrameFree(arrived, from, ps[k].at) && ps[k].at - from > timeout
  {
    var w := After(ps, k, openedAt, timeout);
    if k == 0 {
      assert arrived(openedAt) <= arrived(ps[0].at);
    } else {
      WatchIsTrue(ps, arrived, openedAt, timeout, k);
      assert ps[k - 1].at <= ps[k].at;
      assert arrived(ps[k - 1].at) <= arrived(ps[k].at);
    }
    assert w.lastFrameAt <= ps[k].at;
  }

  lemma {:induction false} FirstPollFrom(ps: seq<Poll>, a: real, period: real, k: nat) returns (j: nat)
    requires Every(ps, period) && period > 0.0 && k < |ps| && a <= ps[k].at && ps[0].at <= a + period
    ensures j <= k && a <= ps[j].at <= a + period
    decreases k
  {
    if k == 0 || ps[k - 1].at < a {
      j := k;
    } else {
      j := FirstPollFrom(ps, a, period, k - 1);
    }
  }

  lemma {:induction false} LastPollUpTo(ps: seq<Poll>, b: real, period: real, k: nat) returns (m: nat)
    requires Every(ps, period) && k < |ps| && ps[k].at <= b && b <= ps[|ps| - 1].at && period > 0.0
    ensures k <= m < |ps| && b - period < ps[m].at <= b
    decreases |ps| - k
  {
    if k + 1 == |ps| || ps[k + 1].at > b {
      m := k;
    } else {
      m := LastPollUpTo(ps, b, period, k + 1);
    }
  }

  /** While nothing arrives and nothing is dropped, the last activity seen does not move. */
  lemma {:induction false} SilenceAccumulates(
    ps: seq<Poll>, arrived: real -> nat, openedAt: real, timeout: real, j: nat, i: nat)
    requires Faithful(ps, arrived, openedAt) && j <= i < |ps|
    requires FrameFree(arrived, ps[j].at, ps[i].at)
    requires forall k :: j < k <= i ==> !DropsAt(ps, k, openedAt, timeout)
    ensures After(ps, i + 1, openedAt, timeout).lastFrameAt <= ps[j].at
    decreases i
  {
    WatchIsTrue(ps, arrived, openedAt, timeout, i + 1);
    if j < i {
      PollsAreOrdered(ps, arrived, openedAt, j, i - 1);
      assert arrived(ps[j].at) <= arrived(ps[i - 1].at) <= arrived(ps[i].at);
      SilenceAccumulates(ps, arrived, openedAt, timeout, j, i - 1);
      WatchIsTrue(ps, arrived, openedAt, timeout, i);
      assert !DropsAt(ps, i, openedAt, timeout);
    }
  }

  /**
   * Complete up to the poll period: a silence of the deadline plus two periods is caught before it ends, from the
   * opening on when the first poll comes within a period of it.
   */
  lemma LongSilenceIsCaught(
    ps: seq<Poll>, arrived: real -> nat, openedAt: real, timeout: real, period: real, a: real, b: real)
    returns (k: nat)
    requires Faithful(ps, arrived, openedAt) && Every(ps, period) && period > 0.0 && timeout >= 0.0
    requires ps != [] && ps[0].at <= a + period && b <= ps[|ps| - 1].at
    requires FrameFree(arrived, a, b) && b - a >= timeout + 2.0 * period
    ensures k < |ps| && a <= ps[k].at <= b && DropsAt(ps, k, openedAt, timeout)
  {
    var j := FirstPollFrom(ps, a, period, |ps| - 1);
    var m := LastPollUpTo(ps, b, period, j);
    SilentBetween(arrived, a, ps[j].at, ps[m].at, b);
    k := SilentStretchDrops(ps, arrived, openedAt, timeout, j, m);
    PollsAreOrdered(ps, arrived, openedAt, j, k);
    PollsAreOrdered(ps, arrived, openedAt, k, m);
  }

  /** Between two polls further apart than the deadline with nothing in between, some poll drops. */
  lemma {:induction false} SilentStretchDrops(
    ps: seq<Poll>, arrived: real -> nat, openedAt: real, timeout: real, j: nat, m: nat) returns (k: nat)
    requires Faithful(ps, arrived, openedAt) && j <= m < |ps| && timeout >= 0.0
    requires FrameFree(arrived, ps[j].at, ps[m].at) && ps[m].at - ps[j].at > timeout
    ensures j < k <= m && DropsAt(ps, k, openedAt, timeout)
  {
    PollsAreOrdered(ps, arrived, openedAt, j, m - 1);
    SilentBetween(arrived, ps[j].at, ps[j].at, ps[m - 1].at, ps[m].at);
    if i :| j < i <= m - 1 && DropsAt(ps, i, openedAt, timeout) {
      k := i;
    } else {
      k := m;
      SilenceAccumulates(ps, arrived, openedAt, timeout, j, m - 1);
      WatchIsTrue(ps, arrived, openedAt, timeout, m);
    }
  }

  lemma SilentBetween(arrived: real -> nat, a: real, x: real, y: real, b: real)
    requires Monotone(arrived) && FrameFree(arrived, a, b) && a <= x <= y <= b
    ensures FrameFree(arrived, x, y)
  {
    assert arrived(a) <= arrived(x) <= arrived(y) <= arrived(b);
  }

  /** A poll records at most one drop. */
  lemma OneAtATime(ps: seq<Poll>, k: nat, openedAt: real, timeout: real)
    requires k < |ps|
    ensures DropsAt(ps, k, openedAt, timeout)
         || After(ps, k + 1, openedAt, timeout).drops == After(ps, k, openedAt, timeout).drops
  {
  }

  /** A poll that finds new frames records none, whatever it waited. */
  lemma NewsIsNoDrop(ps: seq<Poll>, k: nat, openedAt: real, timeout: real)
    requires k < |ps| && Grows(ps, k, openedAt, timeout)
    ensures After(ps, k + 1, openedAt, timeout).drops == After(ps, k, openedAt, timeout).drops
    ensures After(ps, k + 1, openedAt, timeout).lastFrameAt == ps[k].at
  {
  }

  /** Frames or none, every recorded drop has cost a whole deadline. */
  lemma {:induction false} EveryDropCostsADeadline(
    ps: seq<Poll>, arrived: real -> nat, openedAt: real, timeout: real, k: nat)
    requires Faithful(ps, arrived, openedAt) && k <= |ps| && timeout >= 0.0
    ensures var w := After(ps, k, openedAt, timeout);
            && Times(w.drops, timeout) <= w.lastFrameAt - openedAt
            && (k > 0 ==> w.lastFrameAt <= ps[k - 1].at)
    decreases k
  {
    if k > 0 {
      EveryDropCostsADeadline(ps, arrived, openedAt, timeout, k - 1);
    }
  }

  /** Poll `k` finds new frames. */
  ghost predicate Grows(ps: seq<Poll>, k: nat, openedAt: real, timeout: real)
    requires k < |ps|
  {
    ps[k].frames > After(ps, k, openedAt, timeout).seen
  }

  /** The first liveness time is that of the first poll that found new frames with a liveness frame among them. */
  lemma {:induction false} FirstLivenessIsFirst(ps: seq<Poll>, openedAt: real, timeout: real, k: nat)
    requires k <= |ps|
    ensures match After(ps, k, openedAt, timeout).firstLiveness
            case None => forall j :: 0 <= j < k ==> !(Grows(ps, j, openedAt, timeout) && ps[j].liveness)
            case Some(t) =>
              exists i ::
                && 0 <= i < k && Grows(ps, i, openedAt, timeout) && ps[i].liveness && t == ps[i].at - openedAt
                && forall j :: 0 <= j < i ==> !(Grows(ps, j, openedAt, timeout) && ps[j].liveness)
    decreases k
  {
    if k > 0 {
      FirstLivenessIsFirst(ps, openedAt, timeout, k - 1);
      assert Grows(ps, k - 1, openedAt, timeout) <==> ps[k - 1].frames > After(ps, k - 1, openedAt, timeout).seen;
    }
  }

  // ----- no frames at all -----

  predicate Silent(ps: seq<Poll>) {
    forall i :: 0 <= i < |ps| ==> ps[i].frames == 0
  }

  /** The first poll, too, comes within a period of the opening. */
  predicate PolledFromOpening(ps: seq<Poll>, openedAt: real, period: real) {
    && (ps != [] ==> 0.0 <= ps[0].at - openedAt <= period)
    && forall i :: 0 < i < |ps| ==> 0.0 <= ps[i].at - ps[i - 1].at <= period
  }

  function PollTime(ps: seq<Poll>, k: nat, openedAt: real): real
    requires k <= |ps|
  {
    if k == 0 then openedAt else ps[k - 1].at
  }

  /** After any number of silent polls the last mark is at most the deadline old. */
  lemma {:induction false} MarkIsFresh(ps: seq<Poll>, openedAt: real, timeout: real, k: nat)
    requires Silent(ps) && k <= |ps| && timeout >= 0.0
    ensures var w := After(ps, k, openedAt, timeout);
            w.seen == 0 && PollTime(ps, k, openedAt) - w.lastFrameAt <= timeout
  {
    if k > 0 {
      MarkIsFresh(ps, openedAt, timeout, k - 1);
    }
  }

  /** Silent drops are more than the deadline apart, and at most the deadline and one period apart. */
  lemma DropsAreSpaced(ps: seq<Poll>, openedAt: real, timeout: real, period: real, k: nat)
    requires Silent(ps) && PolledFromOpening(ps, openedAt, period) && timeout >= 0.0
    requires k < |ps| && DropsAt(ps, k, openedAt, timeout)
    ensures var (w, next) := (After(ps, k, openedAt, timeout), After(ps, k + 1, openedAt, timeout));
            next.lastFrameAt == ps[k].at && timeout < next.lastFrameAt - w.lastFrameAt <= timeout + period
  {
    MarkIsFresh(ps, openedAt, timeout, k);
    assert ps[k].frames == 0;
  }

  /** Between two drops with none in between, the last mark is that of the earlier one. */
  lemma {:induction false} MarkStays(ps: seq<Poll>, openedAt: real, timeout: real, j: nat, k: nat)
    requires Silent(ps) && j < k <= |ps| && timeout >= 0.0
    requires DropsAt(ps, j, openedAt, timeout)
    requires forall i :: j < i < k ==> !DropsAt(ps, i, openedAt, timeout)
    ensures After(ps, k, openedAt, timeout).lastFrameAt == ps[j].at
    decreases k
  {
    MarkIsFresh(ps, openedAt, timeout, k - 1);
    assert ps[k - 1].frames == 0;
    if k - 1 > j {
      MarkStays(ps, openedAt, timeout, j, k - 1);
      assert !DropsAt(ps, k - 1, openedAt, timeout);
    }
  }

  /** Consecutive drops of a silent hold: more than the deadline apart, at most the deadline and one period. */
  lemma ConsecutiveDrops(ps: seq<Poll>, openedAt: real, timeout: real, period: real, j: nat, k: nat)
    requires Silent(ps) && PolledFromOpening(ps, openedAt, period) && timeout >= 0.0
    requires j < k < |ps| && DropsAt(ps, j, openedAt, timeout) && DropsAt(ps, k, openedAt, timeout)
    requires forall i :: j < i < k ==> !DropsAt(ps, i, openedAt, timeout)
    ensures timeout < ps[k].at - ps[j].at <= timeout + period
  {
    MarkStays(ps, openedAt, timeout, j, k);
    DropsAreSpaced(ps, openedAt, timeout, period, k);
  }

  /** `n * x`, one addition at a time. */
  function Times(n: nat, x: real): real {
    if n == 0 then 0.0 else Times(n - 1, x) + x
  }

  lemma OneMore(a: real, x: real)
    ensures (a + 1.0) * x == a * x + x
  {
  }

  lemma {:induction false} TimesIsProduct(n: nat, x: real)
    ensures Times(n, x) == n as real * x
  {
    if n > 0 {
      TimesIsProduct(n - 1, x);
      OneMore((n - 1) as real, x);
    }
  }

  lemma {:induction false} DropsAddUp(ps: seq<Poll>, openedAt: real, timeout: real, period: real, k: nat)
    requires Silent(ps) && PolledFromOpening(ps, openedAt, period) && timeout >= 0.0
    requires k <= |ps|
    ensures var (w, held) := (After(ps, k, openedAt, timeout), PollTime(ps, k, openedAt) - openedAt);
            && Times(w.drops, timeout) <= w.lastFrameAt - openedAt <= Times(w.drops, timeout + period)
            && w.lastFrameAt - openedAt <= held <= Times(w.drops, timeout + period) + timeout
    decreases k
  {
    MarkIsFresh(ps, openedAt, timeout, k);
    if k > 0 {
      DropsAddUp(ps, openedAt, timeout, period, k - 1);
      var w := After(ps, k - 1, openedAt, timeout);
      assert ps[k - 1].frames == 0;
      MarkIsFresh(ps, openedAt, timeout, k - 1);
      if DropsAt(ps, k - 1, openedAt, timeout) {
        DropsAreSpaced(ps, openedAt, timeout, period, k - 1);
      }
    }
  }

  lemma ProductBounds(n: nat, x: real, y: real, slack: real, held: real)
    requires Times(n, x) <= held <= Times(n, y) + slack
    ensures n as real * x <= held <= n as real * y + slack
  {
    TimesIsProduct(n, x);
    TimesIsProduct(n, y);
  }

  /** How many drops a silent hold records, bounded on both sides for any length of hold. */
  lemma DropsAreCounted(ps: seq<Poll>, openedAt: real, timeout: real, period: real, k: nat)
    requires Silent(ps) && PolledFromOpening(ps, openedAt, period) && timeout >= 0.0
    requires k <= |ps|
    ensures var (drops, held) := (After(ps, k, openedAt, timeout).drops, PollTime(ps, k, openedAt) - openedAt);
            drops as real * timeout <= held <= drops as real * (timeout + period) + timeout
  {
    DropsAddUp(ps, openedAt, timeout, period, k);
    ProductBounds(After(ps, k, openedAt, timeout).drops, timeout, timeout + period, timeout,
                  PollTime(ps, k, openedAt) - openedAt);
  }

  // ----- the verdict -----

  datatype Violation = HoldTooShort | DeadlineFired | StreamReaped | NoLivenessFrame | LivenessTooLate

  datatype Observation = Observation(
    livenessFrames: nat, firstLiveness: Option<real>, drops: nat, streamOpenAtEnd: bool,
    holdDuration: real, timeout: real)

  predicate Held(o: Observation) {
    && o.holdDuration > o.timeout && o.drops == 0 && o.streamOpenAtEnd
    && o.livenessFrames >= 1 && o.firstLiveness.Some? && o.firstLiveness.value <= o.timeout
  }

  method ClassifyIdleHold(o: Observation) returns (held: bool, violations: seq<Violation>)
    ensures held <==> violations == []
    ensures held <==> Held(o)
    ensures HoldTooShort in violations <==> o.holdDuration <= o.timeout
    ensures DeadlineFired in violations <==> o.drops > 0
    ensures StreamReaped in violations <==> !o.streamOpenAtEnd
    ensures NoLivenessFrame in violations <==> o.livenessFrames == 0
    ensures LivenessTooLate in violations
       <==> o.livenessFrames > 0 && (o.firstLiveness.None? || o.firstLiveness.value > o.timeout)
  {
    violations := [];
    if o.holdDuration <= o.timeout {
      violations := violations + [HoldTooShort];
    }
    if o.drops > 0 {
      violations := violations + [DeadlineFired];
    }
    if !o.streamOpenAtEnd {
      violations := violations + [StreamReaped];
    }
    if o.livenessFrames < 1 {
      violations := violations + [NoLivenessFrame];
    } else if o.firstLiveness.None? || o.firstLiveness.value > o.timeout {
      violations := violations + [LivenessTooLate];
    }
    held := violations == [];
  }

  lemma {:induction false} DropsNeverFall(ps: seq<Poll>, openedAt: real, timeout: real, i: nat, k: nat)
    requires i <= k <= |ps|
    ensures After(ps, i, openedAt, timeout).drops <= After(ps, k, openedAt, timeout).drops
    decreases k
  {
    if i < k {
      DropsNeverFall(ps, openedAt, timeout, i, k - 1);
    }
  }

  /** Faithful polls without a drop had no silence of the deadline plus two periods, at the opening or later. */
  lemma NoDropMeansHeard(
    ps: seq<Poll>, arrived: real -> nat, openedAt: real, timeout: real, period: real, a: real, b: real)
    requires Faithful(ps, arrived, openedAt) && Every(ps, period) && period > 0.0 && timeout >= 0.0
    requires ps != [] && ps[0].at <= a + period && b <= ps[|ps| - 1].at
    requires After(ps, |ps|, openedAt, timeout).drops == 0
    ensures FrameFree(arrived, a, b) ==> b - a < timeout + 2.0 * period
  {
    if FrameFree(arrived, a, b) && b - a >= timeout + 2.0 * period {
      var k := LongSilenceIsCaught(ps, arrived, openedAt, timeout, period, a, b);
      DropsNeverFall(ps, openedAt, timeout, k + 1, |ps|);
    }
  }

  /**
   * A hold judged held on what a watch over faithful polls observed had no silence of the deadline plus two periods,
   * at its opening or later, and a liveness frame within the deadline of the opening.
   */
  lemma HeldMeansHeard(
    o: Observation, ps: seq<Poll>, arrived: real -> nat, openedAt: real, period: real, a: real, b: real)
    requires Faithful(ps, arrived, openedAt) && Every(ps, period) && period > 0.0 && o.timeout >= 0.0
    requires ps != [] && ps[0].at <= a + period && b <= ps[|ps| - 1].at
    requires var w := After(ps, |ps|, openedAt, o.timeout); o.drops == w.drops && o.firstLiveness == w.firstLiveness
    requires Held(o)
    ensures FrameFree(arrived, a, b) ==> b - a < o.timeout + 2.0 * period
    ensures exists i :: 0 <= i < |ps| && ps[i].liveness && ps[i].at - openedAt <= o.timeout
  {
    FirstLivenessIsFirst(ps, openedAt, o.timeout, |ps|);
    NoDropMeansHeard(ps, arrived, openedAt, o.timeout, period, a, b);
  }
}
